/** One iteration of the run loop: the invariant is kept, and what may change is bounded. */
module ProcessSteps {
  import opened Words
  import opened Processes
  import opened ProcessInvariants

  /** What an iteration may do to the table, seen from outside the running process. */
  ghost predicate TableFacts(t: Table, pid: Pid, t': Table, forked: Option<Pid>, reaped: Option<Pid>, own: Option<int>) {
    && t.nextPid <= t'.nextPid <= t.nextPid + 1
    && pid in t.records && t.records[pid].exit.None?
    && pid in t'.records && t'.records[pid].exit == own
    && (forked.Some? ==> forked.value == t.nextPid && t'.nextPid == t.nextPid + 1 && forked.value in t'.records)
    && (reaped.Some? ==> reaped.value in t.records && t.records[reaped.value].exit.Some? && reaped.value !in t'.records)
    && (reaped.Some? ==> t.records[reaped.value].parent == Some(pid))
    && (forall p :: p in t.records && p !in t'.records ==> reaped == Some(p))
    && (forall p :: p in t'.records && p !in t.records ==> forked == Some(p))
    && (forall p :: p in t.records && p in t'.records && p != pid ==> t'.records[p].exit == t.records[p].exit)
    && (forall p :: p in t.records && p != pid && IsRunnable(t.records, (p, p)) ==> IsRunnable(t'.records, (p, p)))
  }

  lemma TakenPut(t: Table, pid: Pid, r: Record)
    ensures Put(Taken(t, pid), pid, r) == Put(t, pid, r)
  {
    assert (t.records - {pid})[pid := r] == t.records[pid := r];
  }

  /** Only the running process's own record changes. */
  lemma OwnFacts(t: Table, pid: Pid, r: Record, n: nat)
    requires pid in t.records && t.records[pid].exit.None? && r.exit.None? && t.nextPid <= n <= t.nextPid + 1
    ensures TableFacts(t, pid, Put(t, pid, r).(nextPid := n), None, None, None)
  {
  }

  lemma RaiseNextPid(t: Table, n: nat)
    requires TableInv(t) && t.nextPid <= n
    ensures TableInv(t.(nextPid := n))
  {
    assert KinOf(t.(nextPid := n)) == KinOf(t);
  }

  /** The record of the running process comes back with a new children list. */
  lemma ReturnInv(t: Table, pid: Pid, r: Record)
    requires TableInv(t) && pid in t.records
    requires r == t.records[pid].(children := r.children) && r.state == Runnable
    requires Synced(Taken(t, pid).records, pid, r.children)
    ensures TableInv(Put(t, pid, r))
  {
    RecordAt(t, pid);
    SyncedIsExact(t, pid, r.children);
    ReplaceStep(t, pid, r);
  }

  lemma BlockInv(t: Table, pid: Pid, requested: Option<Pid>, r: Record)
    requires TableInv(t) && pid in t.records && t.records[pid].exit.None?
    requires FirstWanted(Taken(t, pid).QueueOf(pid), requested, 0) < 0 && HasChild(Taken(t, pid), pid, requested)
    requires r == Blocked(t.records[pid]).(children := r.children)
    requires Synced(Taken(t, pid).records, pid, r.children)
    ensures TableInv(Put(t, pid, r))
  {
    RecordAt(t, pid);
    BlockedOk(pid, t.records[pid]);
    BlockedOk(pid, t.records[pid].(children := r.children));
    SyncedIsExact(t, pid, r.children);
    WaitBlocksOnLiveChild(t, pid, requested);
    ReplaceStep(t, pid, r);
  }

  lemma ForkFacts(t: Table, pid: Pid, r: Record, n: Pid, queues: map<Pid, Queue>)
    requires pid in t.records && t.records[pid].exit.None? && r.exit.None? && n == t.nextPid && n !in t.records
    ensures TableFacts(t, pid, Table(t.records[n := NewRecord(n, Some(pid))][pid := r], queues, n + 1), Some(n), None, None)
  {
  }

  lemma ReapFacts(t: Table, pid: Pid, r: Record, c: Pid, queues: map<Pid, Queue>)
    requires pid in t.records && t.records[pid].exit.None? && r.exit.None? && c in t.records && t.records[c].exit.Some? && c != pid
    requires t.records[c].parent == Some(pid) && !IsRunnable(t.records, (c, c))
    ensures TableFacts(t, pid, Table((t.records - {c})[pid := r], queues, t.nextPid), None, Some(c), None)
  {
  }

  lemma ExitFacts(t: Table, pid: Pid, code: int, t': Table)
    requires RecordsOk(t) && pid in t.records && t.records[pid].exit.None?
    requires ExitedRecords(t.records, pid, code, t'.records) && t'.nextPid == t.nextPid
    ensures TableFacts(t, pid, t', None, None, Some(code))
  {
    forall p | p in t.records && p != pid && IsRunnable(t.records, (p, p)) ensures IsRunnable(t'.records, (p, p)) {
      RecordAt(t, p);
      WokenOk(p, t.records[p]);
    }
  }

  // ------------------------------------------------------------ action by action

  /** A boundary state with its next thread, ready to run. */
  ghost predicate Scheduled(s: Sys, pid: Pid) {
    && Inv(s) && pid in s.table.records
    && s.table.records[pid].state == Runnable && s.table.records[pid].exit.None?
  }

  ghost predicate Ends(s: Sys, pid: Pid, s': Sys, forked: Option<Pid>, reaped: Option<Pid>) {
    && TableInv(s'.table)
    && exists own :: TableFacts(s.table, pid, s'.table, forked, reaped, own)
                     && s'.exitCode == if pid == FIRST_PID then own else s.exitCode
  }

  lemma EndsReturn(s: Sys, pid: Pid, q: RunQueue, n: nat, s': Sys)
    requires Scheduled(s, pid) && s.table.nextPid <= n <= s.table.nextPid + 1
    requires PutBack(Taken(s.table, pid).(nextPid := n), pid, s.table.records[pid], Returns, q, s.exitCode, s')
    ensures Ends(s, pid, s', None, None)
  {
    var r := s'.table.records[pid];
    TakenPut(s.table, pid, r);
    ReturnInv(s.table, pid, r);
    RaiseNextPid(Put(s.table, pid, r), n);
    OwnFacts(s.table, pid, r, n);
  }

  lemma EndsBlock(s: Sys, pid: Pid, requested: Option<Pid>, q: RunQueue, s': Sys)
    requires Scheduled(s, pid)
    requires FirstWanted(Taken(s.table, pid).QueueOf(pid), requested, 0) < 0
    requires HasChild(Taken(s.table, pid), pid, requested)
    requires PutBack(Taken(s.table, pid), pid, s.table.records[pid], Blocks, q, s.exitCode, s')
    ensures Ends(s, pid, s', None, None)
  {
    var r := s'.table.records[pid];
    TakenPut(s.table, pid, r);
    BlockInv(s.table, pid, requested, r);
    OwnFacts(s.table, pid, r, s.table.nextPid);
    assert s'.table == Put(s.table, pid, r).(nextPid := s.table.nextPid);
  }

  lemma EndsFork(s: Sys, pid: Pid, q: RunQueue, s': Sys)
    requires Scheduled(s, pid)
    requires PutBack(Fork(Taken(s.table, pid), pid, NoFault).0, pid, s.table.records[pid], Returns, q, s.exitCode, s')
    ensures Ends(s, pid, s', Fork(Taken(s.table, pid), pid, NoFault).1, None)
  {
    var r, n := s'.table.records[pid], s.table.nextPid;
    ForkForm(s.table, pid, r);
    ForkStep(s.table, pid, r, n, s'.table);
    ForkFacts(s.table, pid, r, n, s'.table.queues);
  }

  lemma EndsReap(s: Sys, pid: Pid, requested: Option<Pid>, q: RunQueue, s': Sys)
    requires Scheduled(s, pid) && FirstWanted(s.table.QueueOf(pid), requested, 0) >= 0
    requires PutBack(Wait4(Taken(s.table, pid), pid, requested).0, pid, s.table.records[pid], Returns, q, s.exitCode, s')
    ensures Ends(s, pid, s', None, Wait4(Taken(s.table, pid), pid, requested).1)
  {
    var t, r := s.table, s'.table.records[pid];
    var w, k := t.QueueOf(pid), FirstWanted(t.QueueOf(pid), requested, 0);
    assert QueueExact(KinOf(t), pid, QueueIn(t.queues, pid));
    ReapKin(t, pid, w, k);
    WaitForm(t, pid, requested, r, w, k);
    ReapStep(t, pid, r, k, w[k].0, s'.table);
    RecordAt(t, w[k].0);
    ReapFacts(t, pid, r, w[k].0, s'.table.queues);
  }

  lemma EndsExit(s: Sys, pid: Pid, code: int, s': Sys)
    requires Scheduled(s, pid)
    requires s'.table == Put(RecordExit(Taken(s.table, pid), pid, s.table.records[pid].parent, code), pid,
                             MarkExited(s.table.records[pid], code))
    requires s'.exitCode == if pid == FIRST_PID then Some(code) else s.exitCode
    ensures Ends(s, pid, s', None, None)
  {
    ExitForm(s.table, pid, code);
    ExitStep(s.table, pid, code);
    ExitedLinks(s.table, pid, code);
    ExitFacts(s.table, pid, code, s'.table);
  }

  // ------------------------------------------------------------ any iteration

  lemma IterateScheduled(s: Sys, act: Action, s': Sys, obs: Obs)
    requires Inv(s) && Iterate(s, act, s', obs)
    ensures Scheduled(s, obs.pid)
    ensures NextThread(s.table.records, s.queue).0 == Some((obs.pid, obs.pid))
  {
    ScheduledIsRunnable(s);
  }

  lemma IterateEnds(s: Sys, act: Action, s': Sys, obs: Obs)
    requires Inv(s) && Iterate(s, act, s', obs)
    ensures Ends(s, obs.pid, s', obs.forked, obs.reaped)
  {
    IterateScheduled(s, act, s', obs);
    var pid, t := obs.pid, s.table;
    var q := NextThread(t.records, s.queue).1;
    match act
    case Run =>
      EndsReturn(s, pid, q, t.nextPid, s');
    case DoFork(fault) =>
      if fault.NoFault? {
        EndsFork(s, pid, q, s');
      } else {
        FreshIsNext(t, pid);
        EndsReturn(s, pid, q, t.nextPid + 1, s');
      }
    case DoWait(_, _) =>
      WaitEnds(s, act, s', obs);
    case DoExit(code) =>
      ExitForm(t, pid, code);
      EndsExit(s, pid, code, s');
    case DoHalt(code) =>
      EndsExit(s, pid, code, s');
  }

  lemma WaitEnds(s: Sys, act: Action, s': Sys, obs: Obs)
    requires act.DoWait? && Scheduled(s, obs.pid) && Iterate(s, act, s', obs)
    ensures Ends(s, obs.pid, s', obs.forked, obs.reaped)
  {
    var pid, t, requested := obs.pid, s.table, act.requested;
    var q := NextThread(t.records, s.queue).1;
    if FirstWanted(t.QueueOf(pid), requested, 0) >= 0 {
      EndsReap(s, pid, requested, q, s');
    } else if HasChild(Taken(t, pid), pid, requested) && !act.nohang {
      EndsBlock(s, pid, requested, q, s');
    } else {
      EndsReturn(s, pid, q, t.nextPid, s');
    }
  }

  /** allocate_pid never has to skip: no pid in use reaches next_pid, the running one included. */
  lemma FreshIsNext(t: Table, pid: Pid)
    requires RecordsOk(t)
    ensures FreshFrom(Taken(t, pid), t.nextPid) == t.nextPid
  {
    assert t.nextPid !in t.records;
  }

  /** The run queue after an iteration: the rotated queue, perhaps with threads appended. */
  lemma IterateQueue(s: Sys, act: Action, s': Sys, obs: Obs)
    requires Inv(s) && Iterate(s, act, s', obs)
    ensures NextThread(s.table.records, s.queue).1 <= s'.queue && NoDuplicates(s'.queue)
    ensures !act.DoHalt? ==> EnqueuedAll(s'.table.records, NextThread(s.table.records, s.queue).1, s'.queue)
    ensures act.DoHalt? ==> s'.queue == NextThread(s.table.records, s.queue).1
  {
    IterateRefills(s, act, s', obs);
    var k := NextThreadSplit(s.table.records, s.queue);
    RotateNoDuplicates(s.queue, k);
    if !act.DoHalt? {
      EnqueuedNoDuplicates(s'.table.records, NextThread(s.table.records, s.queue).1, s'.queue);
    }
  }

  lemma IterateRefills(s: Sys, act: Action, s': Sys, obs: Obs)
    requires Inv(s) && Iterate(s, act, s', obs)
    ensures !act.DoHalt? ==> EnqueuedAll(s'.table.records, NextThread(s.table.records, s.queue).1, s'.queue)
    ensures act.DoHalt? ==> s'.queue == NextThread(s.table.records, s.queue).1
  {
    IterateScheduled(s, act, s', obs);
  }

  /** Every iteration keeps the invariant; all but a halt leave every runnable thread queued. */
  lemma IterateInv(s: Sys, act: Action, s': Sys, obs: Obs)
    requires Inv(s) && Iterate(s, act, s', obs)
    ensures Inv(s')
    ensures !act.DoHalt? ==> Ready(s')
  {
    IterateEnds(s, act, s', obs);
    IterateQueue(s, act, s', obs);
    if !act.DoHalt? {
      EnqueuedReady(s', NextThread(s.table.records, s.queue).1);
    }
  }
}
