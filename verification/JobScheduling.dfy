/** hw4: what a sweep does, and exactly when the number of runners stays within MAX_RUNNERS. */
module JobScheduling {
  import opened Integers
  import opened Jobs

  predicate Waiting(j: Job) {
    j.occupied && j.status == WAITING
  }

  /** Has a runner that counts against the limit. */
  predicate Active(j: Job) {
    j.occupied && (j.status == RUNNING || j.status == PAUSED)
  }

  predicate Live(j: Job) {
    Waiting(j) || Active(j)
  }

  function LiveBelow(t: seq<Job>, i: nat): nat
    requires i <= |t|
  {
    if i == 0 then 0 else LiveBelow(t, i - 1) + if Live(t[i - 1]) then 1 else 0
  }

  function ActiveBelow(t: seq<Job>, i: nat): nat
    requires i <= |t|
  {
    if i == 0 then 0 else ActiveBelow(t, i - 1) + if Active(t[i - 1]) then 1 else 0
  }

  function Runners(t: seq<Job>): nat {
    ActiveBelow(t, |t|)
  }

  // ----- The effect of a sweep, slot by slot

  predicate Starts(r: nat, t: seq<Job>, i: nat)
    requires i < |t|
  {
    Waiting(t[i]) && LiveBelow(t, i) < r
  }

  function Swept(r: nat, t: seq<Job>, pids: Pids): (t': seq<Job>)
    ensures |t'| == |t|
  {
    seq(|t|, i requires 0 <= i < |t| => if Starts(r, t, i) then t[i].(status := RUNNING, pgid := pids(i)) else t[i])
  }

  lemma {:induction false} SweepFromEffect(r: nat, t: seq<Job>, s: State, i: nat, count: nat, pids: Pids)
    requires |s.table| == |t| && i <= |t| && count == Min(r, LiveBelow(t, i))
    requires forall j | 0 <= j < |t| :: s.table[j] == if j < i then Swept(r, t, pids)[j] else t[j]
    ensures SweepFrom(r, s, i, count, pids).table == Swept(r, t, pids)
    decreases |t| - i
  {
    if i == |t| {
    } else {
      assert Swept(r, t, pids)[i] == if Starts(r, t, i) then t[i].(status := RUNNING, pgid := pids(i)) else t[i];
      if Starts(r, t, i) {
        SweepFromEffect(r, t, Execute(s, i, pids(i)), i + 1, count + 1, pids);
      } else {
        SweepFromEffect(r, t, s, i + 1, Min(r, LiveBelow(t, i + 1)), pids);
      }
    }
  }

  /**
   * A sweep starts exactly the waiting jobs with fewer than `r` waiting, running or paused jobs below them,
   * and changes nothing else.
   */
  lemma SweepEffect(r: nat, s: State, pids: Pids)
    requires s.enabled
    ensures Sweep(r, s, pids).table == Swept(r, s.table, pids)
  {
    SweepFromEffect(r, s.table, s, 0, 0, pids);
  }

  lemma {:induction false} SweptLive(r: nat, t: seq<Job>, pids: Pids, i: nat)
    requires i <= |t|
    ensures LiveBelow(Swept(r, t, pids), i) == LiveBelow(t, i)
    ensures ActiveBelow(Swept(r, t, pids), i) >= Min(r, LiveBelow(t, i))
  {
    if i == 0 {
    } else {
      SweptLive(r, t, pids, i - 1);
      var t' := Swept(r, t, pids);
      assert t'[i - 1] == if Starts(r, t, i - 1) then t[i - 1].(status := RUNNING, pgid := pids(i - 1)) else t[i - 1];
    }
  }

  /** Whatever still waits after a sweep has `r` running or paused jobs below it. */
  lemma SweepFillsFromBelow(r: nat, s: State, pids: Pids, i: nat)
    requires s.enabled && i < |s.table| && Waiting(Sweep(r, s, pids).table[i])
    ensures ActiveBelow(Sweep(r, s, pids).table, i) >= r
  {
    SweepEffect(r, s, pids);
    SweptLive(r, s.table, pids, i);
    assert Waiting(Swept(r, s.table, pids)[i]);
    assert !Starts(r, s.table, i);
  }

  /** No waiting job is overtaken by one above it. */
  lemma SweepStartsLowestFirst(r: nat, s: State, pids: Pids, i: nat, k: nat)
    requires s.enabled && i < k < |s.table| && Waiting(s.table[i])
    requires Waiting(s.table[k]) && Sweep(r, s, pids).table[k] != s.table[k]
    ensures Sweep(r, s, pids).table[i] == s.table[i].(status := RUNNING, pgid := pids(i))
  {
    SweepEffect(r, s, pids);
    LiveBelowMonotone(s.table, i, k);
    assert Swept(r, s.table, pids)[k] != s.table[k];
    assert Starts(r, s.table, k) && Starts(r, s.table, i);
  }

  lemma {:induction false} LiveBelowMonotone(t: seq<Job>, i: nat, k: nat)
    requires i <= k <= |t|
    ensures LiveBelow(t, i) <= LiveBelow(t, k)
  {
    if i == k {
    } else {
      LiveBelowMonotone(t, i, k - 1);
    }
  }

  /** A second sweep does nothing, not even a callback. */
  lemma SweepTwice(r: nat, s: State, pids: Pids, pids': Pids)
    ensures Sweep(r, Sweep(r, s, pids), pids') == Sweep(r, s, pids)
  {
    if s.enabled {
      SweepEffect(r, s, pids);
      var s1 := Sweep(r, s, pids);
      SweepKeepsEnabled(r, s, 0, 0, pids);
      forall i | 0 <= i < |s1.table| ensures !Starts(r, s1.table, i) {
        SweptLive(r, s.table, pids, i);
        assert s1.table[i] == Swept(r, s.table, pids)[i];
        if Starts(r, s.table, i) {
          assert !Waiting(s1.table[i]);
        } else {
          assert s1.table[i] == s.table[i];
        }
      }
      NothingStarts(r, s1, 0, 0, pids');
    }
  }

  lemma {:induction false} SweepKeepsEnabled(r: nat, s: State, i: nat, count: nat, pids: Pids)
    requires i <= |s.table|
    ensures SweepFrom(r, s, i, count, pids).enabled == s.enabled
    decreases |s.table| - i
  {
    if i == |s.table| {
    } else {
      var j := s.table[i];
      SweepKeepsEnabled(r, Execute(s, i, pids(i)), i + 1, count + 1, pids);
      SweepKeepsEnabled(r, s, i + 1, count + 1, pids);
      SweepKeepsEnabled(r, s, i + 1, count, pids);
    }
  }

  lemma {:induction false} NothingStarts(r: nat, s: State, i: nat, count: nat, pids: Pids)
    requires i <= |s.table| && count == Min(r, LiveBelow(s.table, i))
    requires forall k | 0 <= k < |s.table| :: !Starts(r, s.table, k)
    ensures SweepFrom(r, s, i, count, pids) == s
    decreases |s.table| - i
  {
    if i == |s.table| {
    } else {
      assert !Starts(r, s.table, i);
      NothingStarts(r, s, i + 1, Min(r, LiveBelow(s.table, i + 1)), pids);
    }
  }

  // ----- The runner limit

  /** Every running or paused job has fewer than `r` waiting, running or paused jobs below it. */
  predicate Capped(r: nat, t: seq<Job>) {
    forall i | 0 <= i < |t| && Active(t[i]) :: LiveBelow(t, i) < r
  }

  lemma {:induction false} CappedBelow(r: nat, t: seq<Job>, i: nat)
    requires Capped(r, t) && i <= |t|
    ensures ActiveBelow(t, i) <= Min(r, LiveBelow(t, i))
  {
    if i == 0 {
    } else {
      CappedBelow(r, t, i - 1);
    }
  }

  lemma CappedLimit(r: nat, t: seq<Job>)
    requires Capped(r, t)
    ensures Runners(t) <= r
  {
    CappedBelow(r, t, |t|);
  }

  lemma {:induction false} ActiveBelowMonotone(t: seq<Job>, i: nat, k: nat)
    requires i <= k <= |t|
    ensures ActiveBelow(t, i) <= ActiveBelow(t, k)
  {
    if i == k {
    } else {
      ActiveBelowMonotone(t, i, k - 1);
    }
  }

  lemma SweptCapped(r: nat, t: seq<Job>, pids: Pids)
    ensures Capped(r, Swept(r, t, pids)) <==> Capped(r, t)
  {
    var t' := Swept(r, t, pids);
    forall i | 0 <= i < |t| ensures LiveBelow(t', i) == LiveBelow(t, i) {
      SweptLive(r, t, pids, i);
    }
    if Capped(r, t) {
      forall i | 0 <= i < |t| && Active(t'[i]) ensures LiveBelow(t', i) < r {
        assert Starts(r, t, i) || t'[i] == t[i];
      }
    }
    if Capped(r, t') {
      forall i | 0 <= i < |t| && Active(t[i]) ensures LiveBelow(t, i) < r {
        assert Active(t'[i]);
      }
    }
  }

  /** For every table: a sweep leaves at most `r` runners exactly when the table was capped before. */
  lemma SweepLimitExact(r: nat, s: State, pids: Pids)
    requires s.enabled
    ensures Runners(Sweep(r, s, pids).table) <= r <==> Capped(r, s.table)
  {
    var t, t' := s.table, Swept(r, s.table, pids);
    SweepEffect(r, s, pids);
    SweptCapped(r, t, pids);
    if Capped(r, t) {
      CappedLimit(r, t');
    } else {
      var i :| 0 <= i < |t| && Active(t[i]) && LiveBelow(t, i) >= r;
      SweptLive(r, t, pids, i);
      assert Active(t'[i]);
      ActiveBelowMonotone(t', i + 1, |t|);
    }
  }

  // ----- Creating a job: exactly when the limit survives

  /** Above the slot the new job gets, every runner has room for one more job below it. */
  predicate RoomAbove(r: nat, t: seq<Job>, k: nat)
    requires k <= |t|
  {
    forall i | k < i < |t| && Active(t[i]) :: LiveBelow(t, i) + 1 < r
  }

  lemma {:induction false} LiveBelowAfterPut(t: seq<Job>, k: nat, j: Job, i: nat)
    requires k < |t| && i <= |t|
    ensures LiveBelow(t[k := j], i) ==
      LiveBelow(t, i) + if k < i then (if Live(j) then 1 else 0) - (if Live(t[k]) then 1 else 0) else 0
  {
    if i == 0 {
    } else {
      LiveBelowAfterPut(t, k, j, i - 1);
    }
  }

  lemma EnterCapped(r: nat, s: State, k: nat)
    requires Capped(r, s.table) && k < |s.table| && !s.table[k].occupied
    ensures Capped(r, Enter(s, k, true).table) <==> RoomAbove(r, s.table, k)
    ensures Capped(r, Enter(s, k, false).table)
  {
    var t := s.table;
    forall parses: bool, i | 0 <= i < |t|
      ensures LiveBelow(Enter(s, k, parses).table, i) == LiveBelow(t, i) + if k < i && parses then 1 else 0
    {
      LiveBelowAfterPut(t, k, Enter(s, k, parses).table[k], i);
    }
    var t' := Enter(s, k, true).table;
    if Capped(r, t') {
      forall i | k < i < |t| && Active(t[i]) ensures LiveBelow(t, i) + 1 < r {
        assert Active(t'[i]);
      }
    }
  }

  /** With jobs enabled, creating a job keeps the limit exactly when there is room above its slot. */
  lemma CreateLimitExact(r: nat, s: State, pids: Pids)
    requires s.enabled && Capped(r, s.table) && FirstFree(s.table) < |s.table|
    ensures Runners(CreateJob(r, s, true, pids).table) <= r <==> RoomAbove(r, s.table, FirstFree(s.table))
  {
    var k := FirstFree(s.table);
    EnterCapped(r, s, k);
    SweepLimitExact(r, Enter(s, k, true), pids);
  }
}
