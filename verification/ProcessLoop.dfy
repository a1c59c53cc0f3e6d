/** ProcessTable, Scheduler and run_until_exit as the objects and loops the emulator runs. */
module ProcessLoop {
  import opened Words
  import opened Processes
  import opened ProcessInvariants
  import opened ProcessRuns

  class ProcessTable {
    var records: map<Pid, Record>
    var waitQueues: map<Pid, Queue>
    var nextPid: nat

    function View(): Table
      reads this
    {
      Table(records, waitQueues, nextPid)
    }

    /** new followed by insert_initial. */
    constructor ()
      ensures View() == InitialTable()
    {
      records := map[FIRST_PID := NewRecord(FIRST_PID, None)];
      waitQueues := map[FIRST_PID := []];
      nextPid := FIRST_PID + 1;
    }

    method Take(pid: Pid) returns (record: Option<Record>)
      modifies this
      ensures View() == Taken(old(View()), pid)
      ensures record == if pid in old(records) then Some(old(records)[pid]) else None
    {
      record := if pid in records then Some(records[pid]) else None;
      records := records - {pid};
    }

    method InsertRecord(pid: Pid, record: Record)
      modifies this
      ensures View() == Put(old(View()), pid, record)
    {
      records := records[pid := record];
    }

    method AllocatePid() returns (pid: Pid)
      modifies this
      ensures pid == FreshFrom(old(View()), old(nextPid))
      ensures View() == old(View()).(nextPid := pid + 1)
    {
      ghost var t := View();
      var n := nextPid;
      while n in records
        invariant FreshFrom(t, n) == FreshFrom(t, t.nextPid)
        decreases |set k | k in records && k >= n|
      {
        assert (set k | k in records && k >= n + 1) == (set k | k in records && k >= n) - {n};
        n := n + 1;
      }
      pid := n;
      nextPid := n + 1;
    }

    method ForkFromProcess(parent: Pid, fault: ForkFault) returns (child: Option<Pid>)
      modifies this
      ensures (View(), child) == Fork(old(View()), parent, fault)
    {
      var pid := AllocatePid();
      if fault == CopyFails {
        return None;
      }
      records := records[pid := NewRecord(pid, Some(parent))];
      waitQueues := waitQueues[pid := if pid in waitQueues then waitQueues[pid] else []];
      waitQueues := waitQueues[parent := if parent in waitQueues then waitQueues[parent] else []];
      if parent in records {
        records := records[parent := records[parent].(children := records[parent].children + [pid])];
      }
      return Some(pid);
    }

    method WakeParent(parent: Pid)
      modifies this
      ensures View() == Wake(old(View()), parent)
    {
      if parent in records {
        var r := records[parent];
        records := records[parent := r.(state := Runnable, threads := WakeThreads(r.threads))];
      }
    }

    method Notify(parent: Pid, pid: Pid, code: int)
      modifies this
      ensures View() == Enqueued(old(View()), parent, pid, code)
    {
      var q := if parent in waitQueues then waitQueues[parent] else [];
      waitQueues := waitQueues[parent := q + [(pid, code)]];
    }

    method Exit(pid: Pid, code: int)
      modifies this
      ensures View() == ExitProcess(old(View()), pid, code)
    {
      if pid in records {
        var parent := records[pid].parent;
        records := records[pid := MarkExited(records[pid], code)];
        if parent.Some? {
          Notify(parent.value, pid, code);
          WakeParent(parent.value);
        }
      }
    }

    method Record(pid: Pid, parent: Option<Pid>, code: int)
      modifies this
      ensures View() == RecordExit(old(View()), pid, parent, code)
    {
      Exit(pid, code);
      if parent.Some? {
        var p := parent.value;
        var queued := AlreadyQueued(p, pid);
        if !queued {
          Notify(p, pid, code);
        }
        WakeParent(p);
      }
    }

    method AlreadyQueued(parent: Pid, pid: Pid) returns (queued: bool)
      ensures queued <==> Queued(View().QueueOf(parent), pid)
    {
      var q := if parent in waitQueues then waitQueues[parent] else [];
      var k := 0;
      while k < |q|
        invariant 0 <= k <= |q|
        invariant forall j :: 0 <= j < k ==> q[j].0 != pid
      {
        if q[k].0 == pid {
          return true;
        }
        k := k + 1;
      }
      return false;
    }

    /** wait4 over pop_matching's scan. */
    method Reap(parent: Pid, requested: Option<Pid>) returns (child: Option<Pid>)
      modifies this
      ensures (View(), child) == Wait4(old(View()), parent, requested)
    {
      var q := if parent in waitQueues then waitQueues[parent] else [];
      var k := 0;
      while k < |q| && !Wanted(requested, q[k].0)
        invariant 0 <= k <= |q|
        invariant FirstWanted(q, requested, k) == FirstWanted(q, requested, 0)
      {
        k := k + 1;
      }
      if k == |q| {
        return None;
      }
      var pid := q[k].0;
      records := records - {pid};
      waitQueues := waitQueues[parent := q[..k] + q[k + 1..]] - {pid};
      if parent in records {
        records := records[parent := records[parent].(children := Without(records[parent].children, pid))];
      }
      return Some(pid);
    }

    method HasChildOf(parent: Pid, requested: Option<Pid>) returns (found: bool)
      ensures found <==> HasChild(View(), parent, requested)
    {
      var todo := records.Keys;
      while todo != {}
        invariant todo <= records.Keys
        invariant forall c :: c in records && c !in todo ==> !(records[c].parent == Some(parent) && Wanted(requested, c))
        decreases todo
      {
        var c :| c in todo;
        if records[c].parent == Some(parent) && Wanted(requested, c) {
          return true;
        }
        todo := todo - {c};
      }
      return false;
    }

    /** sync_children, in whatever order the map is iterated. */
    method ChildrenOf(pid: Pid) returns (children: seq<Pid>)
      ensures Synced(records, pid, children)
    {
      children := [];
      var todo := records.Keys;
      while todo != {}
        invariant todo <= records.Keys && NoDuplicates(children)
        invariant forall c :: c in children <==> c in records && c !in todo && records[c].parent == Some(pid)
        decreases todo
      {
        var c :| c in todo;
        if records[c].parent == Some(pid) {
          children := children + [c];
        }
        todo := todo - {c};
      }
    }
  }

  class Scheduler {
    var runQueue: RunQueue

    constructor ()
      ensures runQueue == []
    {
      runQueue := [];
    }

    /** What a series of enqueue calls may do: append distinct new entries. */
    static ghost predicate Extends(q: RunQueue, r: RunQueue) {
      q <= r && forall k :: |q| <= k < |r| ==> r[k] !in r[..k]
    }

    static lemma ExtendsTrans(p: RunQueue, q: RunQueue, r: RunQueue)
      requires Extends(p, q) && Extends(q, r)
      ensures Extends(p, r)
    {
      forall k | |p| <= k < |r| ensures r[k] !in r[..k] {
        if k < |q| {
          assert q[k] == r[k] && q[..k] == r[..k];
        }
      }
    }

    method Enqueue(pid: Pid, tid: Pid)
      modifies this
      ensures Extends(old(runQueue), runQueue) && |runQueue| <= |old(runQueue)| + 1
      ensures forall e :: e in runQueue <==> e in old(runQueue) || e == (pid, tid)
    {
      if (pid, tid) !in runQueue {
        ghost var was := runQueue;
        runQueue := runQueue + [(pid, tid)];
        assert runQueue[..|was|] == was;
      }
    }

    method EnqueueProcess(record: Record)
      modifies this
      ensures Extends(old(runQueue), runQueue)
      ensures forall e :: e in runQueue <==>
                          e in old(runQueue) || exists t :: t in record.threads && Offered(record.threads[t], e)
      ensures |runQueue| <= |old(runQueue)| + |record.threads|
    {
      var todo := record.threads.Keys;
      while todo != {}
        invariant todo <= record.threads.Keys && Extends(old(runQueue), runQueue)
        invariant |runQueue| <= |old(runQueue)| + |record.threads| - |todo|
        invariant forall e :: e in runQueue <==>
                              e in old(runQueue) || exists t :: t in record.threads && t !in todo && Offered(record.threads[t], e)
        decreases todo
      {
        var t :| t in todo;
        ghost var was := runQueue;
        var thread := record.threads[t];
        if thread.state == Runnable {
          Enqueue(thread.pid, thread.tid);
          ExtendsTrans(old(runQueue), was, runQueue);
        }
        todo := todo - {t};
      }
    }

    method Next(table: ProcessTable) returns (next: Option<(Pid, Pid)>)
      modifies this
      ensures (next, runQueue) == NextThread(table.records, old(runQueue))
    {
      while runQueue != []
        invariant NextThread(table.records, runQueue) == NextThread(table.records, old(runQueue))
        decreases |runQueue|
      {
        var e := runQueue[0];
        var runnable := IsRunnable(table.records, e);
        runQueue := runQueue[1..];
        if runnable {
          runQueue := runQueue + [e];
          return Some(e);
        }
      }
      return None;
    }
  }

  /** enqueue_runnable, in whatever order the map is iterated. */
  method EnqueueRunnable(table: ProcessTable, scheduler: Scheduler)
    modifies scheduler
    ensures EnqueuedAll(table.records, old(scheduler.runQueue), scheduler.runQueue)
  {
    ghost var q := scheduler.runQueue;
    var todo := table.records.Keys;
    while todo != {}
      invariant todo <= table.records.Keys && Scheduler.Extends(q, scheduler.runQueue)
      invariant forall e :: e in scheduler.runQueue ==> e in q || Offers(table.records, e)
      invariant forall p, t :: p in table.records && p !in todo && t in table.records[p].threads
                               && table.records[p].threads[t].state == Runnable ==>
                                 (table.records[p].threads[t].pid, table.records[p].threads[t].tid) in scheduler.runQueue
      decreases todo
    {
      var p :| p in todo;
      ghost var was := scheduler.runQueue;
      scheduler.EnqueueProcess(table.records[p]);
      Scheduler.ExtendsTrans(q, was, scheduler.runQueue);
      forall t | t in table.records[p].threads && table.records[p].threads[t].state == Runnable
        ensures (table.records[p].threads[t].pid, table.records[p].threads[t].tid) in scheduler.runQueue
      {
        var thread := table.records[p].threads[t];
        assert Offered(thread, (thread.pid, thread.tid));
      }
      todo := todo - {p};
    }
    assert forall k :: |q| <= k < |scheduler.runQueue| ==> Offers(table.records, scheduler.runQueue[k]) by {
      forall k | |q| <= k < |scheduler.runQueue| ensures Offers(table.records, scheduler.runQueue[k]) {
        assert scheduler.runQueue[k] in scheduler.runQueue;
        assert scheduler.runQueue[k] !in scheduler.runQueue[..k];
        assert forall e :: e in q ==> e in scheduler.runQueue[..k] by {
          assert q <= scheduler.runQueue[..k];
        }
      }
    }
  }

  /** The fork, wait4 and exit arms of dispatch_inner, with the caller's record taken out. */
  method DispatchCall(table: ProcessTable, pid: Pid, act: Action)
    returns (outcome: Outcome, forked: Option<Pid>, reaped: Option<Pid>)
    modifies table
    ensures Effect(table.View(), outcome, forked, reaped) == Dispatch(old(table.View()), pid, act)
  {
    outcome, forked, reaped := Returns, None, None;
    match act
    case Run =>
    case DoFork(fault) =>
      forked := table.ForkFromProcess(pid, fault);
    case DoWait(requested, nohang) =>
      reaped := table.Reap(pid, requested);
      if reaped.None? {
        var waiting := table.HasChildOf(pid, requested);
        if waiting && !nohang {
          outcome := Blocks;
        }
      }
    case DoExit(code) =>
      table.Exit(pid, code);
      outcome := Exits(code);
    case DoHalt(code) =>
      outcome := Halts(code);
  }

  /** The loop body once a thread has been chosen and its record is runnable. */
  method Slice(table: ProcessTable, scheduler: Scheduler, pid: Pid, act: Action, exitCode: Option<int>)
    returns (exitCode': Option<int>, forked: Option<Pid>, reaped: Option<Pid>)
    requires pid in table.records
    modifies table, scheduler
    ensures var e := Dispatch(Taken(old(table.View()), pid), pid, act);
            && forked == e.forked && reaped == e.reaped
            && PutBack(e.table, pid, old(table.records)[pid], e.outcome, old(scheduler.runQueue), exitCode,
                       Sys(table.View(), scheduler.runQueue, exitCode'))
  {
    exitCode' := exitCode;
    var taken := table.Take(pid);
    var record := taken.value;
    var outcome;
    outcome, forked, reaped := DispatchCall(table, pid, act);
    match outcome
    case Returns =>
      var children := table.ChildrenOf(pid);
      table.InsertRecord(pid, record.(children := children));
      EnqueueRunnable(table, scheduler);
    case Blocks =>
      var children := table.ChildrenOf(pid);
      table.InsertRecord(pid, Blocked(record).(children := children));
      EnqueueRunnable(table, scheduler);
    case Exits(code) =>
      table.Record(pid, record.parent, code);
      table.InsertRecord(pid, MarkExited(record, code));
      if pid == FIRST_PID {
        exitCode' := Some(code);
      }
      EnqueueRunnable(table, scheduler);
    case Halts(code) =>
      table.Record(pid, record.parent, code);
      table.InsertRecord(pid, MarkExited(record, code));
      if pid == FIRST_PID {
        exitCode' := Some(code);
      }
  }

  /** One turn of the loop; the two `continue` exits before the slice are never taken. */
  method Iteration(table: ProcessTable, scheduler: Scheduler, act: Action, exitCode: Option<int>)
    returns (o: Option<Obs>, exitCode': Option<int>)
    requires Inv(Sys(table.View(), scheduler.runQueue, exitCode))
    modifies table, scheduler
    ensures o.None? ==> NextThread(old(table.records), old(scheduler.runQueue)).0.None? && exitCode' == exitCode
    ensures o.Some? ==> Iterate(Sys(old(table.View()), old(scheduler.runQueue), exitCode), act,
                                Sys(table.View(), scheduler.runQueue, exitCode'), o.value)
  {
    ghost var s := Sys(table.View(), scheduler.runQueue, exitCode);
    var next := scheduler.Next(table);
    if next.None? {
      return None, exitCode;
    }
    ScheduledIsRunnable(s);
    var pid := next.value.0;
    if pid !in table.records || table.records[pid].state != Runnable {
      assert false;
    }
    var forked, reaped;
    exitCode', forked, reaped := Slice(table, scheduler, pid, act, exitCode);
    o := Some(Obs(pid, forked, reaped));
  }

  datatype RunResult = Finished(code: int) | NoRunnableProcess | StepLimit

  /** What the loop reports after some steps: the limit, else the recorded exit code if there is one. */
  function Ending(steps: nat, exitCode: Option<int>): RunResult {
    if steps >= MAX_STEPS then StepLimit
    else match exitCode case Some(code) => Finished(code) case None => NoRunnableProcess
  }

  /** A run of the protocol in which iteration i does what guest(i) says, and its last state. */
  ghost predicate Performed(guest: nat -> Action, ss: seq<Sys>, acts: seq<Action>, obs: seq<Obs>, last: Sys) {
    && IsRun(ss, acts, obs) && ss[|acts|] == last
    && forall i :: 0 <= i < |acts| ==> acts[i] == guest(i)
  }

  lemma PerformedInv(guest: nat -> Action, ss: seq<Sys>, acts: seq<Action>, obs: seq<Obs>, last: Sys)
    requires Performed(guest, ss, acts, obs, last)
    ensures Inv(last)
  {
    RunInv(ss, acts, obs, |acts|);
  }

  lemma PerformMore(guest: nat -> Action, ss: seq<Sys>, acts: seq<Action>, obs: seq<Obs>, last: Sys, s': Sys, o: Obs)
    requires Performed(guest, ss, acts, obs, last) && Iterate(last, guest(|acts|), s', o)
    ensures Performed(guest, ss + [s'], acts + [guest(|acts|)], obs + [o], s')
  {
    var _, _, _ := RunMore(ss, acts, obs, last, guest(|acts|), s', o);
  }

  lemma PerformedEnd(guest: nat -> Action, ss: seq<Sys>, acts: seq<Action>, obs: seq<Obs>, last: Sys)
    requires Performed(guest, ss, acts, obs, last) && NextThread(last.table.records, last.queue).0.None?
    ensures NoHalt(acts, |acts|) ==> last.exitCode.Some? && AllExited(last.table)
  {
    if NoHalt(acts, |acts|) {
      DeadlockFree(ss, acts, obs, |acts|);
    }
  }

  /**
    run_until_exit against any guest: `guest(i)` is what the process scheduled in iteration i does.
    The loop performs exactly a run of the protocol and stops early only when no thread is left to
    schedule; if no guest halts, it never reports that no runnable process remains, and it finishes
    only when every process has exited, with the initial process's exit code.
   */
  method RunUntilExit(guest: nat -> Action)
    returns (result: RunResult, ghost ss: seq<Sys>, ghost acts: seq<Action>, ghost obs: seq<Obs>, ghost last: Sys)
    ensures Performed(guest, ss, acts, obs, last) && |acts| <= MAX_STEPS
    ensures result == Ending(|acts|, last.exitCode)
    ensures !result.StepLimit? ==> NextThread(last.table.records, last.queue).0.None?
    ensures !result.StepLimit? && NoHalt(acts, |acts|) ==> result.Finished? && AllExited(last.table)
  {
    var table := new ProcessTable();
    var scheduler := new Scheduler();
    EnqueueInitial(table, scheduler);
    var exitCode: Option<int> := None;
    ss, acts, obs, last := [InitialSys()], [], [], InitialSys();
    var step := 0;
    while step < MAX_STEPS
      invariant 0 <= step <= MAX_STEPS && |acts| == step
      invariant Performed(guest, ss, acts, obs, last)
      invariant last == Sys(table.View(), scheduler.runQueue, exitCode)
      invariant fresh(table) && fresh(scheduler)
    {
      PerformedInv(guest, ss, acts, obs, last);
      var o: Option<Obs>;
      o, exitCode := Iteration(table, scheduler, guest(step), exitCode);
      if o.None? {
        PerformedEnd(guest, ss, acts, obs, last);
        result := if exitCode.Some? then Finished(exitCode.value) else NoRunnableProcess;
        return;
      }
      ghost var s' := Sys(table.View(), scheduler.runQueue, exitCode);
      PerformMore(guest, ss, acts, obs, last, s', o.value);
      ss, acts, obs, last := ss + [s'], acts + [guest(step)], obs + [o.value], s';
      step := step + 1;
    }
    result := StepLimit;
  }

  method EnqueueInitial(table: ProcessTable, scheduler: Scheduler)
    requires table.View() == InitialTable() && scheduler.runQueue == []
    modifies scheduler
    ensures scheduler.runQueue == [(FIRST_PID, FIRST_PID)]
  {
    scheduler.EnqueueProcess(table.records[FIRST_PID]);
    var e := (FIRST_PID, FIRST_PID);
    assert Offered(table.records[FIRST_PID].threads[FIRST_PID], e);
    assert e in scheduler.runQueue;
  }
}
