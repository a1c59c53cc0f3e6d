/**
  The process protocol on values: the process table, its wait queues, the scheduler's run
  queue, and one iteration of the run loop as a relation between states.
  HashMap iteration order is left open: every fact that depends on it is a relation.
 */
module Processes {
  import opened Words

  type Pid = nat

  datatype ProcessState = Runnable | Waiting | Exited

  datatype Thread = Thread(tid: Pid, pid: Pid, state: ProcessState)

  datatype Record = Record(
    tid: Pid,
    threads: map<Pid, Thread>,
    parent: Option<Pid>,
    children: seq<Pid>,
    state: ProcessState,
    exit: Option<int>)

  type Queue = seq<(Pid, int)>

  datatype Table = Table(records: map<Pid, Record>, queues: map<Pid, Queue>, nextPid: nat) {
    function QueueOf(p: Pid): Queue { if p in queues then queues[p] else [] }
  }

  type RunQueue = seq<(Pid, Pid)>

  const FIRST_PID: Pid := 1000
  const MAX_STEPS: nat := 5_000_000

  // ------------------------------------------------------------ table operations

  function NewRecord(pid: Pid, parent: Option<Pid>): Record {
    Record(pid, map[pid := Thread(pid, pid, Runnable)], parent, [], Runnable, None)
  }

  /** insert_initial on the empty table. */
  function InitialTable(): Table {
    Table(map[FIRST_PID := NewRecord(FIRST_PID, None)], map[FIRST_PID := []], FIRST_PID + 1)
  }

  function WithQueue(t: Table, p: Pid): Table {
    t.(queues := t.queues[p := t.QueueOf(p)])
  }

  function Enqueued(t: Table, parent: Pid, pid: Pid, code: int): Table {
    t.(queues := t.queues[parent := t.QueueOf(parent) + [(pid, code)]])
  }

  function MarkThreads(threads: map<Pid, Thread>): map<Pid, Thread> {
    map t | t in threads :: threads[t].(state := Exited)
  }

  function WakeThreads(threads: map<Pid, Thread>): map<Pid, Thread> {
    map t | t in threads :: if threads[t].state == Waiting then threads[t].(state := Runnable) else threads[t]
  }

  function MarkExited(r: Record, code: int): Record {
    r.(state := Exited, exit := Some(code), threads := MarkThreads(r.threads))
  }

  /** Waking overwrites the record's state even when that process has exited. */
  function Wake(t: Table, p: Pid): Table {
    if p in t.records then
      var r := t.records[p];
      t.(records := t.records[p := r.(state := Runnable, threads := WakeThreads(r.threads))])
    else t
  }

  function ExitProcess(t: Table, pid: Pid, code: int): Table {
    var parent := if pid in t.records then t.records[pid].parent else None;
    var marked := if pid in t.records then t.(records := t.records[pid := MarkExited(t.records[pid], code)]) else t;
    if parent.Some? then Wake(Enqueued(marked, parent.value, pid, code), parent.value) else marked
  }

  predicate Queued(q: Queue, pid: Pid) {
    exists k :: 0 <= k < |q| && q[k].0 == pid
  }

  function RecordExit(t: Table, pid: Pid, parent: Option<Pid>, code: int): Table {
    var t1 := ExitProcess(t, pid, code);
    if parent.None? then t1
    else
      var p := parent.value;
      var t2 := if Queued(t1.QueueOf(p), pid) then t1 else Enqueued(t1, p, pid, code);
      Wake(t2, p)
  }

  predicate Wanted(requested: Option<Pid>, pid: Pid) {
    requested.None? || requested.value == pid
  }

  /** The first queued child that a wait accepts, or -1. */
  function FirstWanted(q: Queue, requested: Option<Pid>, k: nat): (r: int)
    requires k <= |q|
    ensures r == -1 || k <= r < |q|
    ensures r >= 0 ==> Wanted(requested, q[r].0)
    ensures forall j :: k <= j < (if r >= 0 then r else |q|) ==> !Wanted(requested, q[j].0)
    decreases |q| - k
  {
    if k == |q| then -1 else if Wanted(requested, q[k].0) then k else FirstWanted(q, requested, k + 1)
  }

  function Without(s: seq<Pid>, p: Pid): seq<Pid> {
    if s == [] then [] else (if s[0] == p then [] else [s[0]]) + Without(s[1..], p)
  }

  /** wait4: reap the first matching zombie child, dropping its record and its own queue. */
  function Wait4(t: Table, parent: Pid, requested: Option<Pid>): (Table, Option<Pid>) {
    var q := t.QueueOf(parent);
    var k := FirstWanted(q, requested, 0);
    if k < 0 then (t, None)
    else
      var pid := q[k].0;
      var t1 := Table(t.records - {pid}, t.queues[parent := q[..k] + q[k + 1..]] - {pid}, t.nextPid);
      if parent in t1.records then
        (t1.(records := t1.records[parent := t1.records[parent].(children := Without(t1.records[parent].children, pid))]),
         Some(pid))
      else (t1, Some(pid))
  }

  predicate HasChild(t: Table, parent: Pid, requested: Option<Pid>) {
    exists c :: c in t.records && t.records[c].parent == Some(parent) && Wanted(requested, c)
  }

  /** allocate_pid skips pids present in the table. */
  function FreshFrom(t: Table, n: nat): (pid: Pid)
    ensures pid >= n && pid !in t.records
    decreases |set k | k in t.records && k >= n|
  {
    if n !in t.records then n
    else
      assert (set k | k in t.records && k >= n + 1) == (set k | k in t.records && k >= n) - {n};
      FreshFrom(t, n + 1)
  }

  /** Whether copying the process and its memory for a fork can be completed. */
  datatype ForkFault = NoFault | CopyFails

  /** fork_from_process: the pid is consumed even when the copy fails. */
  function Fork(t: Table, parent: Pid, fault: ForkFault): (Table, Option<Pid>) {
    var pid := FreshFrom(t, t.nextPid);
    var t1 := t.(nextPid := pid + 1);
    if fault.CopyFails? then (t1, None)
    else
      var t2 := WithQueue(WithQueue(t1.(records := t1.records[pid := NewRecord(pid, Some(parent))]), pid), parent);
      if parent in t2.records then
        (t2.(records := t2.records[parent := t2.records[parent].(children := t2.records[parent].children + [pid])]),
         Some(pid))
      else (t2, Some(pid))
  }

  // ------------------------------------------------------------ scheduler

  predicate IsRunnable(records: map<Pid, Record>, e: (Pid, Pid)) {
    e.0 in records && e.1 in records[e.0].threads && records[e.0].threads[e.1].state == Runnable
  }

  /** next_thread: drop threads that are not runnable, rotate the first one that is. */
  function NextThread(records: map<Pid, Record>, q: RunQueue): (Option<(Pid, Pid)>, RunQueue) {
    if q == [] then (None, [])
    else if IsRunnable(records, q[0]) then (Some(q[0]), q[1..] + [q[0]])
    else NextThread(records, q[1..])
  }

  ghost predicate NoDuplicates<T>(s: seq<T>) {
    forall i, j :: 0 <= i < j < |s| ==> s[i] != s[j]
  }

  ghost predicate Offers(records: map<Pid, Record>, e: (Pid, Pid)) {
    exists p, t :: p in records && t in records[p].threads && Offered(records[p].threads[t], e)
  }

  predicate Offered(thread: Thread, e: (Pid, Pid)) {
    thread.state == Runnable && e == (thread.pid, thread.tid)
  }

  /** enqueue_runnable in some iteration order: every offered thread ends up queued, once. */
  ghost predicate EnqueuedAll(records: map<Pid, Record>, q: RunQueue, r: RunQueue) {
    && q <= r
    && (forall k :: |q| <= k < |r| ==> Offers(records, r[k]) && r[k] !in r[..k])
    && (forall e :: Offers(records, e) ==> e in r)
  }

  /** sync_children in some iteration order. */
  ghost predicate Synced(records: map<Pid, Record>, pid: Pid, children: seq<Pid>) {
    && NoDuplicates(children)
    && (forall c :: c in children <==> c in records && records[c].parent == Some(pid))
  }

  // ------------------------------------------------------------ one iteration

  /** What the running process does in its slice. */
  datatype Action =
    | Run                                          // plain code, execve, or a call without process effects
    | DoFork(fault: ForkFault)
    | DoWait(requested: Option<Pid>, nohang: bool)
    | DoExit(code: int)
    | DoHalt(code: int)

  datatype Outcome = Returns | Blocks | Exits(code: int) | Halts(code: int)

  /** The table after the syscall, with the running record still taken out. */
  datatype Effect = Effect(table: Table, outcome: Outcome, forked: Option<Pid>, reaped: Option<Pid>)

  function Dispatch(t: Table, pid: Pid, act: Action): Effect {
    match act
    case Run => Effect(t, Returns, None, None)
    case DoFork(fault) =>
      var (t1, child) := Fork(t, pid, fault);
      Effect(t1, Returns, child, None)
    case DoWait(requested, nohang) =>
      var (t1, child) := Wait4(t, pid, requested);
      if child.Some? then Effect(t1, Returns, None, child)
      else if HasChild(t, pid, requested) && !nohang then Effect(t, Blocks, None, None)
      else Effect(t, Returns, None, None)
    case DoExit(code) => Effect(ExitProcess(t, pid, code), Exits(code), None, None)
    case DoHalt(code) => Effect(t, Halts(code), None, None)
  }

  datatype Sys = Sys(table: Table, queue: RunQueue, exitCode: Option<int>)

  datatype Obs = Obs(pid: Pid, forked: Option<Pid>, reaped: Option<Pid>)

  function InitialSys(): Sys {
    Sys(InitialTable(), [(FIRST_PID, FIRST_PID)], None)
  }

  function Taken(t: Table, pid: Pid): Table {
    t.(records := t.records - {pid})
  }

  function Put(t: Table, pid: Pid, r: Record): Table {
    t.(records := t.records[pid := r])
  }

  function Blocked(r: Record): Record {
    r.(state := Waiting,
       threads := if r.tid in r.threads then r.threads[r.tid := r.threads[r.tid].(state := Waiting)] else r.threads)
  }

  /** How the loop puts the record back, per outcome. */
  ghost predicate PutBack(t: Table, pid: Pid, r: Record, outcome: Outcome, q: RunQueue, exitCode: Option<int>, s': Sys) {
    match outcome
    case Returns =>
      && pid in s'.table.records
      && Synced(t.records, pid, s'.table.records[pid].children)
      && s'.table == Put(t, pid, r.(children := s'.table.records[pid].children))
      && EnqueuedAll(s'.table.records, q, s'.queue)
      && s'.exitCode == exitCode
    case Blocks =>
      && pid in s'.table.records
      && Synced(t.records, pid, s'.table.records[pid].children)
      && s'.table == Put(t, pid, Blocked(r).(children := s'.table.records[pid].children))
      && EnqueuedAll(s'.table.records, q, s'.queue)
      && s'.exitCode == exitCode
    case Exits(code) =>
      && s'.table == Put(RecordExit(t, pid, r.parent, code), pid, MarkExited(r, code))
      && EnqueuedAll(s'.table.records, q, s'.queue)
      && s'.exitCode == (if pid == FIRST_PID then Some(code) else exitCode)
    case Halts(code) =>
      && s'.table == Put(RecordExit(t, pid, r.parent, code), pid, MarkExited(r, code))
      && s'.queue == q
      && s'.exitCode == (if pid == FIRST_PID then Some(code) else exitCode)
  }

  /** One iteration of the run loop in which a thread was found. */
  ghost predicate Iterate(s: Sys, act: Action, s': Sys, obs: Obs) {
    var (next, q) := NextThread(s.table.records, s.queue);
    && next.Some?
    && obs.pid == next.value.0
    && (if obs.pid !in s.table.records || s.table.records[obs.pid].state != Runnable then
          s' == s.(queue := q) && obs == Obs(obs.pid, None, None)
        else
          var e := Dispatch(Taken(s.table, obs.pid), obs.pid, act);
          && obs.forked == e.forked && obs.reaped == e.reaped
          && PutBack(e.table, obs.pid, s.table.records[obs.pid], e.outcome, q, s.exitCode, s'))
  }

  /** A run of the loop: states at the top of each iteration, actions and what happened. */
  ghost predicate IsRun(ss: seq<Sys>, acts: seq<Action>, obs: seq<Obs>) {
    && |ss| == |acts| + 1 == |obs| + 1
    && ss[0] == InitialSys()
    && forall i :: 0 <= i < |acts| ==> Iterate(ss[i], acts[i], ss[i + 1], obs[i])
  }
}
