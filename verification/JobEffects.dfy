/** hw4: what each step does to the table, slot by slot, and what the fields of a job then mean. */
module JobEffects {
  import opened Jobs
  import opened JobScheduling

  // ----- Status words

  /** A job whose runner waitpid has been asked about. */
  function Told(j: Job, w: int): Job {
    if w == NO_WORD then j
    else if w % 128 == 0 then j.(status := COMPLETED, exitStatus := w)
    else if w % 128 <= 126 then j.(status := ABORTED, exitStatus := w)
    else if w == 0xFFFF then j.(status := RUNNING)
    else if w % 256 == 127 then j.(status := PAUSED)
    else j
  }

  lemma ProcessEffect(s: State, i: nat, w: int)
    requires Has(s, i)
    ensures Process(s, i, w).table == s.table[i := Told(s.table[i], w)] && Process(s, i, w).enabled == s.enabled
  {
  }

  lemma LowSevenBits(w: int)
    ensures w % 256 % 128 == w % 128
  {
    assert w == 128 * (2 * (w / 256)) + w % 256;
  }

  lemma WordBits(code: int, signal: int, core: bool)
    requires 1 <= signal <= 126
    ensures 256 * code % 128 == 0 && (signal + if core then 128 else 0) % 128 == signal
    ensures (256 * signal + 127) % 256 == 127 && (256 * signal + 127) % 128 == 127
  {
    assert 256 * code == 128 * (2 * code);
    assert 256 * signal + 127 == 128 * (2 * signal) + 127;
  }

  /**
   * A runner that calls exit, is killed (with or without a core dump), stopped or continued makes its job COMPLETED,
   * ABORTED, PAUSED or RUNNING, for every exit code and every signal.
   */
  lemma WaitWords(s: State, i: nat, code: int, signal: int, core: bool)
    requires Has(s, i) && 0 <= code < 256 && 1 <= signal <= 126
    ensures var j, killed := s.table[i], signal + if core then 128 else 0;
            && Process(s, i, 256 * code).table[i] == j.(status := COMPLETED, exitStatus := 256 * code)
            && Process(s, i, killed).table[i] == j.(status := ABORTED, exitStatus := killed)
            && Process(s, i, 256 * signal + 127).table[i] == j.(status := PAUSED)
            && Process(s, i, 0xFFFF).table[i] == j.(status := RUNNING)
            && Process(s, i, -100) == s
  {
    WordBits(code, signal, core);
  }

  // ----- The SIGCHLD handler

  function Reported(t: seq<Job>, words: Words): (t': seq<Job>)
    ensures |t'| == |t|
  {
    seq(|t|, i requires 0 <= i < |t| => if HasRunner(t[i]) then Told(t[i], words(i)) else t[i])
  }

  /** Slots below `i` are as in `after`, the others as in `before`. */
  predicate Halfway(before: seq<Job>, after: seq<Job>, t: seq<Job>, i: nat) {
    |before| == |after| == |t| && i <= |t| && forall k | 0 <= k < |t| :: t[k] == if k < i then after[k] else before[k]
  }

  lemma {:induction false} ReportsEffectFrom(t: seq<Job>, s: State, i: nat, words: Words)
    requires Halfway(t, Reported(t, words), s.table, i)
    ensures ReportsFrom(s, i, words).table == Reported(t, words) && ReportsFrom(s, i, words).enabled == s.enabled
    decreases |s.table| - i
  {
    if i == |t| {
    } else {
      ProcessEffect(s, i, words(i));
      ReportsEffectFrom(t, if HasRunner(t[i]) then Process(s, i, words(i)) else s, i + 1, words);
    }
  }

  /**
   * The handler asks about every job that has a runner, once, changes each as its word says, and then starts what may
   * start.
   */
  lemma ChildEffect(r: nat, s: State, words: Words, pids: Pids)
    ensures Step(r, s, Child(words, pids)).table ==
            if s.enabled then Swept(r, Reported(s.table, words), pids) else Reported(s.table, words)
  {
    ReportsEffectFrom(s.table, s, 0, words);
    var s1 := ReportsFrom(s, 0, words);
    if s.enabled {
      SweepEffect(r, s1, pids);
    }
  }

  // ----- Commands

  /** A job that has been cancelled, if it could be. */
  function Canceled(j: Job, killed: bool): Job {
    if !killed || !j.occupied then j
    else if j.status == NEW || j.status == WAITING then j.(canceled := true, status := ABORTED)
    else if j.status == RUNNING || j.status == PAUSED then j.(canceled := true, status := CANCELED)
    else j
  }

  /** Cancelling works on every job that waits, runs or is paused, and on no other. */
  lemma CancelEffect(s: State, id: int, killed: bool)
    ensures Has(s, id) ==> CancelJob(s, id, killed).table == s.table[id := Canceled(s.table[id], killed)]
    ensures CancelJob(s, id, killed) != s <==>
              killed && Has(s, id) && s.table[id].occupied && s.table[id].status in {NEW, WAITING, RUNNING, PAUSED}
    ensures CancelJob(s, id, killed).enabled == s.enabled
  {
    if Has(s, id) && s.table[id] == Canceled(s.table[id], killed) {
      assert s.table[id := s.table[id]] == s.table;
    }
  }

  /** Expunging frees the slot of every completed or aborted job, and of no other. */
  lemma ExpungeEffect(s: State, id: int)
    ensures Has(s, id) && s.table[id].occupied && s.table[id].status in {COMPLETED, ABORTED} ==>
              ExpungeJob(s, id).table == s.table[id := s.table[id].(occupied := false)]
    ensures ExpungeJob(s, id) != s <==>
              Has(s, id) && s.table[id].occupied && s.table[id].status in {COMPLETED, ABORTED}
    ensures ExpungeJob(s, id).enabled == s.enabled
  {
  }

  /** Enabling starts what may start; disabling only sets the flag. */
  lemma EnableEffect(r: nat, s: State, value: bool, pids: Pids)
    ensures var s' := Step(r, s, Enable(value, pids));
            s'.enabled == value && if value then s'.table == Swept(r, s.table, pids) else s' == s.(enabled := false)
  {
    if value {
      SweepEffect(r, s.(enabled := true), pids);
      SweepKeepsEnabled(r, s.(enabled := true), 0, 0, pids);
    }
  }

  // ----- The end of the program

  function CanceledAll(t: seq<Job>, kills: nat -> bool): (t': seq<Job>)
    ensures |t'| == |t|
  {
    seq(|t|, i requires 0 <= i < |t| => Canceled(t[i], kills(i)))
  }

  lemma {:induction false} CancelAllEffect(t: seq<Job>, s: State, i: nat, kills: nat -> bool)
    requires Halfway(t, CanceledAll(t, kills), s.table, i)
    ensures CancelAll(s, i, kills).table == CanceledAll(t, kills) && CancelAll(s, i, kills).enabled == s.enabled
    decreases |s.table| - i
  {
    if i == |t| {
    } else {
      CancelEffect(s, i, kills(i));
      CancelAllEffect(t, CancelJob(s, i, kills(i)), i + 1, kills);
    }
  }

  /** What is left of a job when its runner has been waited for. */
  function Reaped(j: Job, w: int): Job {
    var j1 := if HasRunner(j) then Told(j, Awaited(w)) else j;
    if j1.status in {COMPLETED, ABORTED} then j1.(occupied := false) else j1
  }

  function ReapedAll(t: seq<Job>, words: Words): (t': seq<Job>)
    ensures |t'| == |t|
  {
    seq(|t|, i requires 0 <= i < |t| => Reaped(t[i], words(i)))
  }

  lemma ReapEffect(s: State, i: nat, w: int)
    requires Has(s, i)
    ensures var s1 := if HasRunner(s.table[i]) then Process(s, i, Awaited(w)) else s;
            var s2 := ExpungeJob(s1, i);
            s2.table == s.table[i := Reaped(s.table[i], w)] && s2.enabled == s.enabled
  {
    ProcessEffect(s, i, Awaited(w));
    var s1 := if HasRunner(s.table[i]) then Process(s, i, Awaited(w)) else s;
    ExpungeEffect(s1, i);
    assert s.table[i := s.table[i]] == s.table;
  }

  lemma {:induction false} ReapAllEffect(t: seq<Job>, s: State, i: nat, words: Words)
    requires Halfway(t, ReapedAll(t, words), s.table, i)
    ensures ReapAll(s, i, words).table == ReapedAll(t, words) && ReapAll(s, i, words).enabled == s.enabled
    decreases |s.table| - i
  {
    if i == |t| {
    } else {
      ReapEffect(s, i, words(i));
      var s1 := if HasRunner(s.table[i]) then Process(s, i, Awaited(words(i))) else s;
      ReapAllEffect(t, ExpungeJob(s1, i), i + 1, words);
    }
  }

  lemma AwaitedEnds(j: Job, w: int)
    ensures Told(j, Awaited(w)).status in {COMPLETED, ABORTED} && Told(j, Awaited(w)).occupied == j.occupied
  {
  }

  lemma FinishedJob(j: Job, killed: bool, w: int)
    ensures var j' := Reaped(Canceled(j, killed), w);
            && (j'.occupied <==> j.occupied && !killed && (j.status == NEW || j.status == WAITING))
            && (j'.occupied ==> j' == j)
  {
    AwaitedEnds(Canceled(j, killed), w);
  }

  /** At the end exactly the jobs remain that waited and could not be killed, and they are as they were. */
  lemma FinishEffect(r: nat, s: State, kills: nat -> bool, words: Words, i: nat)
    requires Has(s, i)
    ensures var j, j' := s.table[i], Step(r, s, Finish(kills, words)).table[i];
            && (j'.occupied <==> j.occupied && !kills(i) && (j.status == NEW || j.status == WAITING))
            && (j'.occupied ==> j' == j)
  {
    CancelAllEffect(s.table, s, 0, kills);
    var s1 := CancelAll(s, 0, kills);
    ReapAllEffect(s1.table, s1, 0, words);
    FinishedJob(s.table[i], kills(i), words(i));
  }
}
