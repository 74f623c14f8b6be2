/** hw4: the runner limit over whole runs. */
module JobSafety {
  import opened Jobs
  import opened JobEffects
  import opened JobScheduling

  /** Fewer jobs that wait or run, in the same places, cannot break the cap. */
  lemma ShrinkCapped(r: nat, t: seq<Job>, u: seq<Job>)
    requires Capped(r, t) && |u| == |t|
    requires forall i | 0 <= i < |t| :: (Live(u[i]) ==> Live(t[i])) && (Active(u[i]) ==> Active(t[i]))
    ensures Capped(r, u)
  {
    forall i | 0 <= i < |u| && Active(u[i]) ensures LiveBelow(u, i) < r {
      LiveBelowShrinks(t, u, i);
    }
  }

  lemma {:induction false} LiveBelowShrinks(t: seq<Job>, u: seq<Job>, i: nat)
    requires |u| == |t| && i <= |t| && forall j | 0 <= j < |t| :: Live(u[j]) ==> Live(t[j])
    ensures LiveBelow(u, i) <= LiveBelow(t, i)
  {
    if i == 0 {
    } else {
      LiveBelowShrinks(t, u, i - 1);
    }
  }

  /** A job killed by a command reports nothing but its end. */
  predicate NoRevival(t: seq<Job>, words: Words) {
    forall i | 0 <= i < |t| && t[i].occupied && t[i].status == CANCELED ::
      !IfStopped(words(i)) && !IfContinued(words(i))
  }

  predicate Admissible(r: nat, s: State, a: Action) {
    match a
    case Create(parses, _) =>
      parses && FirstFree(s.table) < |s.table| ==> RoomAbove(r, s.table, FirstFree(s.table))
    case Child(words, _) => NoRevival(s.table, words)
    case _ => true
  }

  lemma ProcessCapped(r: nat, s: State, i: nat, w: int)
    requires Capped(r, s.table) && Has(s, i) && HasRunner(s.table[i])
    requires s.table[i].status == CANCELED ==> !IfStopped(w) && !IfContinued(w)
    ensures Capped(r, Process(s, i, w).table)
  {
    ShrinkCapped(r, s.table, Process(s, i, w).table);
  }

  lemma {:induction false} ReportsCapped(r: nat, s: State, i: nat, words: Words)
    requires i <= |s.table| && Capped(r, s.table)
    requires forall k | i <= k < |s.table| && s.table[k].occupied && s.table[k].status == CANCELED ::
               !IfStopped(words(k)) && !IfContinued(words(k))
    ensures Capped(r, ReportsFrom(s, i, words).table)
    decreases |s.table| - i
  {
    if i == |s.table| {
    } else {
      if HasRunner(s.table[i]) {
        ProcessCapped(r, s, i, words(i));
        ReportsCapped(r, Process(s, i, words(i)), i + 1, words);
      } else {
        ReportsCapped(r, s, i + 1, words);
      }
    }
  }

  lemma {:induction false} CancelAllCapped(r: nat, s: State, i: nat, kills: nat -> bool)
    requires i <= |s.table| && Capped(r, s.table)
    ensures Capped(r, CancelAll(s, i, kills).table)
    decreases |s.table| - i
  {
    if i == |s.table| {
    } else {
      ShrinkCapped(r, s.table, CancelJob(s, i, kills(i)).table);
      CancelAllCapped(r, CancelJob(s, i, kills(i)), i + 1, kills);
    }
  }

  lemma {:induction false} ReapAllCapped(r: nat, s: State, i: nat, words: Words)
    requires i <= |s.table| && Capped(r, s.table)
    ensures Capped(r, ReapAll(s, i, words).table)
    decreases |s.table| - i
  {
    if i == |s.table| {
    } else {
      var s1 := if HasRunner(s.table[i]) then Process(s, i, Awaited(words(i))) else s;
      ShrinkCapped(r, s.table, ExpungeJob(s1, i).table);
      ReapAllCapped(r, ExpungeJob(s1, i), i + 1, words);
    }
  }

  lemma SweepCapped(r: nat, s: State, pids: Pids)
    requires Capped(r, s.table)
    ensures Capped(r, Sweep(r, s, pids).table)
  {
    if s.enabled {
      SweepEffect(r, s, pids);
      SweptCapped(r, s.table, pids);
    }
  }

  lemma StepCapped(r: nat, s: State, a: Action)
    requires Capped(r, s.table) && Admissible(r, s, a)
    ensures Capped(r, Step(r, s, a).table)
  {
    match a
    case Enable(value, pids) =>
      SweepCapped(r, s.(enabled := value), pids);
    case Create(parses, pids) =>
      var k := FirstFree(s.table);
      if k < |s.table| {
        EnterCapped(r, s, k);
        SweepCapped(r, Enter(s, k, parses), pids);
      }
    case Expunge(id) =>
      ShrinkCapped(r, s.table, ExpungeJob(s, id).table);
    case Cancel(id, killed) =>
      ShrinkCapped(r, s.table, CancelJob(s, id, killed).table);
    case Pause(_, _) =>
    case Resume(_, _) =>
    case Child(words, pids) =>
      ReportsCapped(r, s, 0, words);
      SweepCapped(r, ReportsFrom(s, 0, words), pids);
    case Finish(kills, words) =>
      CancelAllCapped(r, s, 0, kills);
      ReapAllCapped(r, CancelAll(s, 0, kills), 0, words);
  }

  predicate AdmissibleRun(r: nat, s: State, actions: seq<Action>)
    decreases |actions|
  {
    actions != [] ==> Admissible(r, s, actions[0]) && AdmissibleRun(r, Step(r, s, actions[0]), actions[1..])
  }

  lemma {:induction false} RunCapped(r: nat, s: State, actions: seq<Action>, k: nat)
    requires Capped(r, s.table) && AdmissibleRun(r, s, actions) && k <= |actions|
    ensures Capped(r, Run(r, s, actions[..k]).table)
    decreases k
  {
    if k == 0 {
    } else {
      StepCapped(r, s, actions[0]);
      RunCapped(r, Step(r, s, actions[0]), actions[1..], k - 1);
      assert actions[..k][1..] == actions[1..][..k - 1];
    }
  }

  /**
   * Main result: at every point of every run in which each new job finds room above its slot and no killed job
   * comes back, at most `r` jobs are running or paused.
   */
  lemma RunnersStayWithinLimit(r: nat, maxJobs: nat, actions: seq<Action>, k: nat)
    requires AdmissibleRun(r, Init(maxJobs), actions) && k <= |actions|
    ensures Runners(Run(r, Init(maxJobs), actions[..k]).table) <= r
  {
    RunCapped(r, Init(maxJobs), actions, k);
    CappedLimit(r, Run(r, Init(maxJobs), actions[..k]).table);
  }

  /** A new job that lands above all occupied slots always finds room. */
  lemma NoReuseIsAdmissible(r: nat, s: State, parses: bool, pids: Pids)
    requires forall i | FirstFree(s.table) < i < |s.table| :: !s.table[i].occupied
    ensures Admissible(r, s, Create(parses, pids))
  {
  }

  /** Putting a running or paused job into a slot that held neither a waiting nor an active one. */
  lemma {:induction false} ActivateCapExact(r: nat, t: seq<Job>, i: nat, j: Job)
    requires Capped(r, t) && i < |t| && !Live(t[i]) && Active(j)
    ensures Capped(r, t[i := j]) <==> LiveBelow(t, i) < r && RoomAbove(r, t, i)
  {
    var t' := t[i := j];
    forall k | 0 <= k < |t| ensures LiveBelow(t', k) == LiveBelow(t, k) + if i < k then 1 else 0 {
      LiveBelowAfterPut(t, i, j, k);
    }
    assert Active(t'[i]);
    if Capped(r, t') {
      forall k | i < k < |t| && Active(t[k]) ensures LiveBelow(t, k) + 1 < r {
        assert Active(t'[k]);
      }
    }
  }

  lemma RevivedJob(s: State, i: nat, w: int) returns (j': Job)
    requires Has(s, i) && s.table[i].occupied && (w % 256 == 127 || w == 0xFFFF)
    ensures Process(s, i, w).table == s.table[i := j'] && Active(j')
  {
    j' := Told(s.table[i], w);
    ProcessEffect(s, i, w);
    LowSevenBits(w);
  }

  /** A killed job that reports a stop or continuation keeps the cap exactly when its slot has room for a new job. */
  lemma RevivalCapExact(r: nat, s: State, i: nat, w: int)
    requires Capped(r, s.table) && Has(s, i) && s.table[i].occupied && s.table[i].status == CANCELED
    requires w % 256 == 127 || w == 0xFFFF
    ensures Capped(r, Process(s, i, w).table) <==> LiveBelow(s.table, i) < r && RoomAbove(r, s.table, i)
  {
    var j' := RevivedJob(s, i, w);
    ActivateCapExact(r, s.table, i, j');
  }

  // ----- The limit fails when a low slot is used again

  const MAX_JOBS := 8
  const MAX_RUNNERS := 4

  /** Five jobs are spooled, the first one ends and is expunged, and a sixth job takes its slot. */
  function ReuseRun(pids: Pids): seq<Action> {
    var create := Create(true, pids);
    [create, create, create, create, create] +
    [Enable(true, pids), Child(i => if i == 0 then 0 else NO_WORD, pids), Expunge(0), create]
  }

  /** While starting jobs is disabled, each new job takes the next slot and waits. */
  predicate AllWait(s: State, n: nat) {
    !s.enabled && |s.table| == MAX_JOBS &&
    forall i | 0 <= i < MAX_JOBS :: s.table[i].occupied == (i < n) && (i < n ==> s.table[i].status == WAITING)
  }

  lemma {:induction false} SpoolFive(s: State, n: nat, rest: seq<Action>, pids: Pids)
    requires AllWait(s, n) && n <= 5
    ensures exists s' ::
      AllWait(s', 5) && Run(MAX_RUNNERS, s, seq(5 - n, _ => Create(true, pids)) + rest) == Run(MAX_RUNNERS, s', rest)
    decreases 5 - n
  {
    var creates := seq(5 - n, _ => Create(true, pids));
    if n == 5 {
      assert creates + rest == rest;
    } else {
      FirstFreeIs(s.table, n);
      var s1 := Step(MAX_RUNNERS, s, Create(true, pids));
      SpoolFive(s1, n + 1, rest, pids);
      assert (creates + rest)[1..] == seq(5 - (n + 1), _ => Create(true, pids)) + rest;
    }
  }

  lemma {:induction false} NothingReported(s: State, i: nat, words: Words)
    requires i <= |s.table| && forall k | i <= k < |s.table| :: words(k) == NO_WORD
    ensures ReportsFrom(s, i, words) == s
    decreases |s.table| - i
  {
    if i == |s.table| {
    } else {
      NothingReported(s, i + 1, words);
    }
  }

  lemma CountFive(t: seq<Job>)
    requires |t| >= 5 && forall i | 1 <= i < 5 :: Live(t[i])
    ensures forall i | 1 <= i <= 5 :: LiveBelow(t, i) == i - if Live(t[0]) then 0 else 1
  {
    assert LiveBelow(t, 0) == 0;
    assert LiveBelow(t, 1) == if Live(t[0]) then 1 else 0;
    assert LiveBelow(t, 2) == LiveBelow(t, 1) + 1;
    assert LiveBelow(t, 3) == LiveBelow(t, 2) + 1;
    assert LiveBelow(t, 4) == LiveBelow(t, 3) + 1;
    assert LiveBelow(t, 5) == LiveBelow(t, 4) + 1;
  }

  /** Slots 1 to 4 run, everything else is free. */
  predicate FourRun(s: State) {
    s.enabled && |s.table| == MAX_JOBS &&
    forall i | 0 <= i < MAX_JOBS :: s.table[i].occupied == (1 <= i < 5) && (1 <= i < 5 ==> s.table[i].status == RUNNING)
  }

  /** Slots 0 to 3 run, slot 4 waits, everything else is free. */
  predicate FourRunOneWaits(s: State) {
    s.enabled && |s.table| == MAX_JOBS &&
    forall i | 0 <= i < MAX_JOBS ::
      s.table[i].occupied == (i < 5) && (i < 5 ==> s.table[i].status == if i < 4 then RUNNING else WAITING)
  }

  lemma EnableFive(s: State, pids: Pids)
    requires AllWait(s, 5)
    ensures FourRunOneWaits(Step(MAX_RUNNERS, s, Enable(true, pids)))
  {
    SweepEffect(MAX_RUNNERS, s.(enabled := true), pids);
    SweepKeepsEnabled(MAX_RUNNERS, s.(enabled := true), 0, 0, pids);
    CountFive(s.table);
    assert LiveBelow(s.table, 0) == 0 && LiveBelow(s.table, 4) == 4;
    var s1 := Step(MAX_RUNNERS, s, Enable(true, pids));
    forall i | 0 <= i < MAX_JOBS
      ensures s1.table[i].occupied == (i < 5) && (i < 5 ==> s1.table[i].status == if i < 4 then RUNNING else WAITING)
    {
      assert s1.table[i] == Swept(MAX_RUNNERS, s.table, pids)[i];
      assert Starts(MAX_RUNNERS, s.table, i) <==> i < 4;
    }
  }

  lemma FirstEnds(s: State, words: Words, pids: Pids)
    requires FourRunOneWaits(s) && words(0) == 0 && forall i | 1 <= i < MAX_JOBS :: words(i) == NO_WORD
    ensures FourRun(Step(MAX_RUNNERS, Step(MAX_RUNNERS, s, Child(words, pids)), Expunge(0)))
  {
    var s2 := Process(s, 0, 0);
    NothingReported(s2, 1, words);
    SweepEffect(MAX_RUNNERS, s2, pids);
    SweepKeepsEnabled(MAX_RUNNERS, s2, 0, 0, pids);
    CountFive(s2.table);
    assert LiveBelow(s2.table, 4) == 3;
    var s3 := Step(MAX_RUNNERS, s, Child(words, pids));
    assert ReportsFrom(s, 0, words) == s2;
    assert s3.table == Swept(MAX_RUNNERS, s2.table, pids);
    forall i | 0 <= i < MAX_JOBS
      ensures s3.table[i] == if i == 4 then s2.table[4].(status := RUNNING, pgid := pids(4)) else s2.table[i]
    {
      assert Starts(MAX_RUNNERS, s2.table, i) <==> i == 4;
    }
  }

  lemma FifthRunner(s: State, pids: Pids)
    requires FourRun(s)
    ensures Runners(Step(MAX_RUNNERS, s, Create(true, pids)).table) > MAX_RUNNERS
  {
    CountFive(s.table);
    assert LiveBelow(s.table, 0) == 0;
    assert FirstFree(s.table) == 0;
    assert Active(s.table[4]) && LiveBelow(s.table, 4) + 1 >= MAX_RUNNERS;
    CreateLimitExact(MAX_RUNNERS, s, pids);
  }

  /** With the program's constants this run ends with five runners. */
  lemma ReuseExceedsLimit(pids: Pids)
    ensures Runners(Run(MAX_RUNNERS, Init(MAX_JOBS), ReuseRun(pids)).table) > MAX_RUNNERS
  {
    var a := ReuseRun(pids);
    assert a == seq(5, _ => Create(true, pids)) + a[5..];
    SpoolFive(Init(MAX_JOBS), 0, a[5..], pids);
    var s5 :| AllWait(s5, 5) && Run(MAX_RUNNERS, Init(MAX_JOBS), a) == Run(MAX_RUNNERS, s5, a[5..]);
    EnableFive(s5, pids);
    var s6 := Step(MAX_RUNNERS, s5, a[5]);
    FirstEnds(s6, a[6].words, pids);
    var s7 := Step(MAX_RUNNERS, s6, a[6]);
    var s8 := Step(MAX_RUNNERS, s7, a[7]);
    FifthRunner(s8, pids);
    var s9 := Step(MAX_RUNNERS, s8, a[8]);
    assert Run(MAX_RUNNERS, s5, a[5..]) == Run(MAX_RUNNERS, s6, a[6..]);
    assert Run(MAX_RUNNERS, s6, a[6..]) == Run(MAX_RUNNERS, s7, a[7..]);
    assert Run(MAX_RUNNERS, s7, a[7..]) == Run(MAX_RUNNERS, s8, a[8..]);
    assert Run(MAX_RUNNERS, s8, a[8..]) == Run(MAX_RUNNERS, s9, []);
  }
}
