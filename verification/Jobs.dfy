/**
 * hw4: the job table as a state machine. Each user command and each run of the SIGCHLD handler is one step;
 * what fork, killpg and waitpid deliver is part of the step.
 */
module Jobs {

  datatype Status = NEW | WAITING | RUNNING | PAUSED | CANCELED | COMPLETED | ABORTED

  /** `occupied` means that the slot's task pointer is not NULL. */
  datatype Job = Job(occupied: bool, status: Status, pgid: int, exitStatus: int, canceled: bool)

  /** The callbacks, in the order of their calls. */
  datatype Event =
    | Created(id: nat)
    | StatusChange(id: nat, before: Status, after: Status)
    | Started(id: nat, pgid: int)
    | Ended(id: nat, pgid: int, result: int)
    | Paused(id: nat, pgid: int)
    | Resumed(id: nat, pgid: int)
    | Expunged(id: nat)

  datatype State = State(enabled: bool, table: seq<Job>, log: seq<Event>)

  type Pids = nat -> int

  /** For each slot, the status word that waitpid stores for its runner. */
  type Words = nat -> int

  datatype Action =
    | Enable(value: bool, pids: Pids)
    | Create(parses: bool, pids: Pids)
    | Expunge(id: int)
    | Cancel(id: int, killed: bool)
    | Pause(id: int, killed: bool)
    | Resume(id: int, killed: bool)
    | Child(words: Words, pids: Pids)
    | Finish(kills: nat -> bool, words: Words)

  function Init(maxJobs: nat): State {
    State(false, seq(maxJobs, _ => Job(false, NEW, 0, 0, false)), [])
  }

  predicate Has(s: State, id: int) {
    0 <= id < |s.table|
  }

  predicate HasRunner(j: Job) {
    j.occupied && (j.status == RUNNING || j.status == CANCELED || j.status == PAUSED)
  }

  // ----- Status words: the macros of <sys/wait.h>, in the layout of the GNU C library

  /** What the program stores where waitpid may store a word. */
  const NO_WORD := -100

  predicate IfExited(w: int) {
    w % 128 == 0
  }

  predicate IfSignaled(w: int) {
    1 <= w % 128 <= 126
  }

  predicate IfStopped(w: int) {
    w % 256 == 127
  }

  predicate IfContinued(w: int) {
    w == 0xFFFF
  }

  // ----- Elementary updates

  function Put(s: State, i: nat, j: Job): State
    requires Has(s, i)
  {
    s.(table := s.table[i := j])
  }

  function Log(s: State, e: Event): State {
    s.(log := s.log + [e])
  }

  /** alter_status */
  function Alter(s: State, i: nat, status: Status): State
    requires Has(s, i)
  {
    Put(Log(s, StatusChange(i, s.table[i].status, status)), i, s.table[i].(status := status))
  }

  /** execute_job, parent side */
  function Execute(s: State, i: nat, pid: int): State
    requires Has(s, i)
  {
    var s1 := Alter(s, i, RUNNING);
    Log(Put(s1, i, s1.table[i].(pgid := pid)), Started(i, pid))
  }

  /** process_wstatus */
  function Process(s: State, i: nat, w: int): State
    requires Has(s, i)
  {
    var pgid := s.table[i].pgid;
    if w == NO_WORD then s
    else if IfExited(w) then Alter(Log(Put(s, i, s.table[i].(exitStatus := w)), Ended(i, pgid, w)), i, COMPLETED)
    else if IfSignaled(w) then Alter(Log(Put(s, i, s.table[i].(exitStatus := w)), Ended(i, pgid, w)), i, ABORTED)
    else if IfStopped(w) then Alter(Log(s, Paused(i, pgid)), i, PAUSED)
    else if IfContinued(w) then Alter(Log(s, Resumed(i, pgid)), i, RUNNING)
    else s
  }

  // ----- The scheduler sweep

  /** check_and_execute_jobs from slot `i` on, having counted `count` runners below. */
  function SweepFrom(r: nat, s: State, i: nat, count: nat, pids: Pids): (s': State)
    requires i <= |s.table|
    ensures |s'.table| == |s.table|
    decreases |s.table| - i
  {
    if i == |s.table| then s
    else
      var j := s.table[i];
      if j.occupied && count < r && j.status == WAITING then
        SweepFrom(r, Execute(s, i, pids(i)), i + 1, count + 1, pids)
      else if j.occupied && count < r && (j.status == RUNNING || j.status == PAUSED) then
        SweepFrom(r, s, i + 1, count + 1, pids)
      else
        SweepFrom(r, s, i + 1, count, pids)
  }

  function Sweep(r: nat, s: State, pids: Pids): (s': State)
    ensures |s'.table| == |s.table|
  {
    if s.enabled then SweepFrom(r, s, 0, 0, pids) else s
  }

  // ----- Commands

  /** The lowest free slot, or the table size. */
  function FirstFree(table: seq<Job>): (k: nat)
    ensures k <= |table| && (forall i | 0 <= i < k :: table[i].occupied) && (k < |table| ==> !table[k].occupied)
  {
    if table == [] || !table[0].occupied then 0 else 1 + FirstFree(table[1..])
  }

  lemma {:induction false} FirstFreeIs(t: seq<Job>, k: nat)
    requires k <= |t| && (forall i | 0 <= i < k :: t[i].occupied) && (k < |t| ==> !t[k].occupied)
    ensures FirstFree(t) == k
  {
    if k == 0 {
    } else {
      FirstFreeIs(t[1..], k - 1);
    }
  }

  /** job_create up to the sweep; a task that does not parse leaves the slot free. */
  function Enter(s: State, k: nat, parses: bool): State
    requires Has(s, k)
  {
    var j := s.table[k].(occupied := parses, status := WAITING, pgid := -1, canceled := false);
    Put(Log(Log(s, Created(k)), StatusChange(k, NEW, WAITING)), k, j)
  }

  function CreateJob(r: nat, s: State, parses: bool, pids: Pids): State {
    var k := FirstFree(s.table);
    if k == |s.table| then s else Sweep(r, Enter(s, k, parses), pids)
  }

  predicate CanExpunge(s: State, id: int) {
    Has(s, id) && s.table[id].occupied && (s.table[id].status == ABORTED || s.table[id].status == COMPLETED)
  }

  function ExpungeJob(s: State, id: int): State {
    if CanExpunge(s, id) then Log(Put(s, id, s.table[id].(occupied := false)), Expunged(id)) else s
  }

  predicate CanCancel(s: State, id: int) {
    && Has(s, id) && s.table[id].occupied
    && s.table[id].status != CANCELED && s.table[id].status != ABORTED && s.table[id].status != COMPLETED
  }

  function CancelJob(s: State, id: int, killed: bool): State {
    if CanCancel(s, id) && killed then
      var s1 := Put(s, id, s.table[id].(canceled := true));
      Alter(s1, id, if s.table[id].status == NEW || s.table[id].status == WAITING then ABORTED else CANCELED)
    else s
  }

  // ----- Child events and the end of the program

  function ReportsFrom(s: State, i: nat, words: Words): (s': State)
    requires i <= |s.table|
    ensures |s'.table| == |s.table|
    decreases |s.table| - i
  {
    if i == |s.table| then s
    else ReportsFrom(if HasRunner(s.table[i]) then Process(s, i, words(i)) else s, i + 1, words)
  }

  function CancelAll(s: State, i: nat, kills: nat -> bool): (s': State)
    requires i <= |s.table|
    ensures |s'.table| == |s.table|
    decreases |s.table| - i
  {
    if i == |s.table| then s else CancelAll(CancelJob(s, i, kills(i)), i + 1, kills)
  }

  /** A blocking waitpid reports ends only; a failed one leaves the word zero. */
  function Awaited(w: int): int {
    if w != NO_WORD && (IfExited(w) || IfSignaled(w)) then w else 0
  }

  function ReapAll(s: State, i: nat, words: Words): (s': State)
    requires i <= |s.table|
    ensures |s'.table| == |s.table|
    decreases |s.table| - i
  {
    if i == |s.table| then s
    else
      var s1 := if HasRunner(s.table[i]) then Process(s, i, Awaited(words(i))) else s;
      ReapAll(ExpungeJob(s1, i), i + 1, words)
  }

  function Step(r: nat, s: State, a: Action): (s': State)
    ensures |s'.table| == |s.table|
  {
    match a
    case Enable(value, pids) => Sweep(r, s.(enabled := value), pids)
    case Create(parses, pids) => CreateJob(r, s, parses, pids)
    case Expunge(id) => ExpungeJob(s, id)
    case Cancel(id, killed) => CancelJob(s, id, killed)
    // Pausing and resuming only send a signal; the status follows when the runner reports.
    case Pause(_, _) => s
    case Resume(_, _) => s
    case Child(words, pids) => Sweep(r, ReportsFrom(s, 0, words), pids)
    case Finish(kills, words) => ReapAll(CancelAll(s, 0, kills), 0, words)
  }

  function Run(r: nat, s: State, actions: seq<Action>): State
    decreases |actions|
  {
    if actions == [] then s else Run(r, Step(r, s, actions[0]), actions[1..])
  }
}
