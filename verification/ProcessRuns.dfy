/** Safety and progress over whole runs of the emulator's process loop. */
module ProcessRuns {
  import opened Words
  import opened Processes
  import opened ProcessInvariants
  import opened ProcessSteps

  lemma InitialInv()
    ensures Inv(InitialSys()) && Ready(InitialSys())
  {
    var t := InitialTable();
    assert KinOf(t) == map[FIRST_PID := (None, None)];
    assert t.QueueOf(FIRST_PID) == [];
  }

  ghost predicate NoHalt(acts: seq<Action>, i: nat) {
    forall j :: 0 <= j < |acts| && j < i ==> !acts[j].DoHalt?
  }

  /** The invariant holds at the top of every iteration of every run. */
  lemma {:induction false} RunInv(ss: seq<Sys>, acts: seq<Action>, obs: seq<Obs>, i: nat)
    requires IsRun(ss, acts, obs) && i < |ss|
    ensures Inv(ss[i])
    ensures NoHalt(acts, i) ==> Ready(ss[i])
  {
    if i == 0 {
      InitialInv();
    } else {
      RunInv(ss, acts, obs, i - 1);
      assert Iterate(ss[i - 1], acts[i - 1], ss[i], obs[i - 1]);
      IterateInv(ss[i - 1], acts[i - 1], ss[i], obs[i - 1]);
    }
  }

  /** A run and one more iteration. */
  lemma RunMore(ss: seq<Sys>, acts: seq<Action>, obs: seq<Obs>, s: Sys, act: Action, s': Sys, o: Obs)
    returns (ss': seq<Sys>, acts': seq<Action>, obs': seq<Obs>)
    requires IsRun(ss, acts, obs) && ss[|acts|] == s && Iterate(s, act, s', o)
    ensures ss' == ss + [s'] && acts' == acts + [act] && obs' == obs + [o]
    ensures IsRun(ss', acts', obs') && ss'[|acts'|] == s'
  {
    ss', acts', obs' := ss + [s'], acts + [act], obs + [o];
    forall i | 0 <= i < |acts'| ensures Iterate(ss'[i], acts'[i], ss'[i + 1], obs'[i]) {
      if i < |acts| { assert Iterate(ss[i], acts[i], ss[i + 1], obs[i]); }
    }
  }

  /** One iteration seen from outside: what was scheduled, and what may have changed. */
  ghost predicate StepOk(s: Sys, o: Obs, s': Sys) {
    exists own :: TableFacts(s.table, o.pid, s'.table, o.forked, o.reaped, own)
  }

  ghost predicate RunOk(ss: seq<Sys>, obs: seq<Obs>) {
    && |ss| == |obs| + 1
    && forall i :: 0 <= i < |obs| ==> StepOk(ss[i], obs[i], ss[i + 1])
  }

  lemma RunIsOk(ss: seq<Sys>, acts: seq<Action>, obs: seq<Obs>)
    requires IsRun(ss, acts, obs)
    ensures RunOk(ss, obs)
  {
    forall i | 0 <= i < |obs| ensures StepOk(ss[i], obs[i], ss[i + 1]) {
      RunStepOk(ss, acts, obs, i);
    }
  }

  lemma RunStepOk(ss: seq<Sys>, acts: seq<Action>, obs: seq<Obs>, i: nat)
    requires IsRun(ss, acts, obs) && i < |obs|
    ensures StepOk(ss[i], obs[i], ss[i + 1])
  {
    RunInv(ss, acts, obs, i);
    assert Iterate(ss[i], acts[i], ss[i + 1], obs[i]);
    IterateEnds(ss[i], acts[i], ss[i + 1], obs[i]);
  }

  // ------------------------------------------------------------ the table's promises

  ghost predicate ExitedChild(t: Table, p: Pid, c: Pid, code: int) {
    c in t.records && t.records[c].parent == Some(p) && t.records[c].exit == Some(code)
  }

  /** An exact queue, in terms of the records. */
  lemma QueueMeaning(t: Table, p: Pid, q: Queue, c: Pid, code: int)
    requires QueueExact(KinOf(t), p, q)
    ensures (c, code) in q <==> ExitedChild(t, p, c, code)
  {
    if ExitedChild(t, p, c, code) {
      assert IsChild(KinOf(t), p, c);
      var k :| 0 <= k < |q| && q[k].0 == c;
      assert q[k] == (c, code);
    }
  }

  lemma ListMeaning(t: Table, p: Pid, children: seq<Pid>, c: Pid)
    requires ListExact(KinOf(t), p, children)
    ensures c in children <==> c in t.records && t.records[c].parent == Some(p)
  {
    assert c in children <==> IsChild(KinOf(t), p, c);
  }

  /** Queue and list of a process in a table that satisfies the invariant. */
  lemma TableExact(t: Table, p: Pid)
    requires TableInv(t) && p in t.records
    ensures QueueExact(KinOf(t), p, t.QueueOf(p)) && ListExact(KinOf(t), p, t.records[p].children)
  {
    assert t.QueueOf(p) == QueueIn(t.queues, p);
  }

  /** Wait queues and children lists are exact at every boundary of every run. */
  lemma WaitQueuesExact(ss: seq<Sys>, acts: seq<Action>, obs: seq<Obs>, i: nat, p: Pid)
    requires IsRun(ss, acts, obs) && i < |ss| && p in ss[i].table.records
    ensures var t := ss[i].table;
            && NoDuplicates(t.QueueOf(p))
            && (forall c: Pid, code: int :: (c, code) in t.QueueOf(p) <==> ExitedChild(t, p, c, code))
            && NoDuplicates(t.records[p].children)
            && (forall c :: c in t.records[p].children <==> c in t.records && t.records[c].parent == Some(p))
  {
    RunInv(ss, acts, obs, i);
    var t := ss[i].table;
    TableExact(t, p);
    forall c: Pid, code: int ensures (c, code) in t.QueueOf(p) <==> ExitedChild(t, p, c, code) {
      QueueMeaning(t, p, t.QueueOf(p), c, code);
    }
    forall c: Pid ensures c in t.records[p].children <==> c in t.records && t.records[c].parent == Some(p) {
      ListMeaning(t, p, t.records[p].children, c);
    }
  }

  /** No lost wakeup: a waiting process has a child in the table that has not exited. */
  lemma NoLostWakeup(ss: seq<Sys>, acts: seq<Action>, obs: seq<Obs>, i: nat, p: Pid) returns (c: Pid)
    requires IsRun(ss, acts, obs) && i < |ss|
    requires p in ss[i].table.records && p in ss[i].table.records[p].threads
    requires ss[i].table.records[p].threads[p].state == Waiting
    ensures c in ss[i].table.records && ss[i].table.records[c].parent == Some(p)
    ensures ss[i].table.records[c].exit.None? && c > p
  {
    RunInv(ss, acts, obs, i);
    var t := ss[i].table;
    RecordAt(t, p);
    assert HasLiveChild(KinOf(t), p);
    c :| LiveChild(KinOf(t), p, c);
    RecordAt(t, c);
  }

  // ------------------------------------------------------------ progress

  ghost predicate AllExited(t: Table) {
    forall p :: p in t.records ==> t.records[p].exit.Some?
  }

  /** Among live processes, a chain of waits climbs through ever larger pids to a runnable one. */
  lemma LiveRunnable(t: Table, p: Pid) returns (q: Pid)
    requires TableInv(t) && p in t.records && t.records[p].exit.None?
    ensures q in t.records && IsRunnable(t.records, (q, q)) && q >= p
    decreases t.nextPid - p
  {
    RecordAt(t, p);
    if t.records[p].state == Waiting {
      assert HasLiveChild(KinOf(t), p);
      var c :| LiveChild(KinOf(t), p, c);
      RecordAt(t, c);
      q := LiveRunnable(t, c);
    } else {
      q := p;
    }
  }

  /** next_thread finds a thread exactly when some queued thread is runnable. */
  lemma NextThreadFinds(records: map<Pid, Record>, q: RunQueue)
    ensures NextThread(records, q).0.Some? <==> exists e :: e in q && IsRunnable(records, e)
  {
    var k := NextThreadSplit(records, q);
    if k < |q| { assert q[k] in q; }
  }

  lemma ExitedNotRunnable(t: Table, e: (Pid, Pid))
    requires RecordsOk(t) && IsRunnable(t.records, e)
    ensures t.records[e.0].exit.None? && e.1 == e.0
  {
    RecordAt(t, e.0);
  }

  /**
    Deadlock freedom: in a run without a halt, the scheduler finds no thread exactly when every
    process has exited, and then the initial process's exit code is known.
   */
  lemma DeadlockFree(ss: seq<Sys>, acts: seq<Action>, obs: seq<Obs>, i: nat)
    requires IsRun(ss, acts, obs) && i < |ss| && NoHalt(acts, i)
    ensures NextThread(ss[i].table.records, ss[i].queue).0.None? <==> AllExited(ss[i].table)
    ensures NextThread(ss[i].table.records, ss[i].queue).0.None? ==>
              && FIRST_PID in ss[i].table.records
              && ss[i].exitCode.Some? && ss[i].exitCode == ss[i].table.records[FIRST_PID].exit
  {
    RunInv(ss, acts, obs, i);
    var s := ss[i];
    NextThreadFinds(s.table.records, s.queue);
    if !AllExited(s.table) {
      var p :| p in s.table.records && s.table.records[p].exit.None?;
      var q := LiveRunnable(s.table, p);
      assert (q, q) in s.queue;
    } else {
      forall e | IsRunnable(s.table.records, e) ensures false {
        ExitedNotRunnable(s.table, e);
      }
    }
  }

  // ------------------------------------------------------------ exit is final

  /** p has been handed out before, and is gone from the table or has exited. */
  predicate Gone(t: Table, p: Pid) {
    p < t.nextPid && (p in t.records ==> t.records[p].exit.Some?)
  }

  lemma GoneStep(s: Sys, o: Obs, s': Sys, p: Pid)
    requires StepOk(s, o, s') && Gone(s.table, p)
    ensures Gone(s'.table, p) && o.pid != p && o.forked != Some(p)
    ensures p !in s.table.records ==> p !in s'.table.records && o.reaped != Some(p)
  {
  }

  lemma {:induction false} GoneForever(ss: seq<Sys>, obs: seq<Obs>, i: nat, j: nat, p: Pid)
    requires RunOk(ss, obs) && i <= j < |ss| && Gone(ss[i].table, p)
    ensures Gone(ss[j].table, p)
    ensures p !in ss[i].table.records ==> p !in ss[j].table.records
  {
    if i < j {
      GoneForever(ss, obs, i, j - 1, p);
      GoneStep(ss[j - 1], obs[j - 1], ss[j], p);
    }
  }

  /** An exited process is never scheduled again, whatever wakes its record. */
  lemma ExitIsFinal(ss: seq<Sys>, acts: seq<Action>, obs: seq<Obs>, i: nat, j: nat, p: Pid)
    requires IsRun(ss, acts, obs) && i <= j < |acts|
    requires p in ss[i].table.records && ss[i].table.records[p].exit.Some?
    ensures obs[j].pid != p
  {
    RunInv(ss, acts, obs, i);
    RecordAt(ss[i].table, p);
    RunIsOk(ss, acts, obs);
    GoneForever(ss, obs, i, j, p);
    GoneStep(ss[j], obs[j], ss[j + 1], p);
  }

  lemma PidStep(s: Sys, o: Obs, s': Sys)
    requires StepOk(s, o, s')
    ensures s.table.nextPid <= s'.table.nextPid <= s.table.nextPid + 1
    ensures o.forked.Some? ==> o.forked.value == s.table.nextPid && s'.table.nextPid == s.table.nextPid + 1
    ensures o.reaped.Some? ==> o.reaped.value in s.table.records && s.table.records[o.reaped.value].exit.Some?
                               && s.table.records[o.reaped.value].parent == Some(o.pid) && o.reaped.value !in s'.table.records
  {
  }

  lemma {:induction false} NextPidGrows(ss: seq<Sys>, obs: seq<Obs>, i: nat, j: nat)
    requires RunOk(ss, obs) && i <= j < |ss|
    ensures ss[i].table.nextPid <= ss[j].table.nextPid <= ss[i].table.nextPid + (j - i)
  {
    if i < j {
      NextPidGrows(ss, obs, i, j - 1);
      PidStep(ss[j - 1], obs[j - 1], ss[j]);
    }
  }

  lemma ForkedPidsIncrease(ss: seq<Sys>, obs: seq<Obs>, i: nat, j: nat)
    requires RunOk(ss, obs) && i < j < |obs| && obs[i].forked.Some? && obs[j].forked.Some?
    ensures obs[i].forked.value < obs[j].forked.value
  {
    PidStep(ss[i], obs[i], ss[i + 1]);
    PidStep(ss[j], obs[j], ss[j + 1]);
    NextPidGrows(ss, obs, i + 1, j);
  }

  /** Forked pids strictly increase over a run, so none is handed out twice and none equals a live pid. */
  lemma PidsNeverReused(ss: seq<Sys>, acts: seq<Action>, obs: seq<Obs>, i: nat, j: nat)
    requires IsRun(ss, acts, obs) && i < |acts| && j < |acts| && obs[i].forked.Some? && obs[j].forked.Some?
    ensures obs[i].forked.value > FIRST_PID && obs[i].forked.value !in ss[i].table.records
    ensures i < j ==> obs[i].forked.value < obs[j].forked.value
    ensures obs[i].forked == obs[j].forked ==> i == j
  {
    RunIsOk(ss, acts, obs);
    RunInv(ss, acts, obs, i);
    PidStep(ss[i], obs[i], ss[i + 1]);
    NextPidGrows(ss, obs, 0, i);
    if i < j { ForkedPidsIncrease(ss, obs, i, j); }
    if j < i { ForkedPidsIncrease(ss, obs, j, i); }
  }

  /** Within the step cap the 32-bit pid counter never overflows. */
  lemma PidCounterFits(ss: seq<Sys>, acts: seq<Action>, obs: seq<Obs>, i: nat)
    requires IsRun(ss, acts, obs) && i < |ss| && |acts| <= MAX_STEPS
    ensures ss[i].table.nextPid < 0x1_0000_0000
    ensures forall p :: p in ss[i].table.records ==> p < 0x1_0000_0000
  {
    RunIsOk(ss, acts, obs);
    NextPidGrows(ss, obs, 0, i);
    RunInv(ss, acts, obs, i);
  }

  /** Each pid is reaped at most once in a run, by its parent, and only after it exited. */
  lemma ReapedOnce(ss: seq<Sys>, acts: seq<Action>, obs: seq<Obs>, i: nat, j: nat)
    requires IsRun(ss, acts, obs) && i <= j < |acts|
    requires obs[i].reaped.Some? && obs[i].reaped == obs[j].reaped
    ensures i == j
    ensures obs[i].reaped.value in ss[i].table.records && ss[i].table.records[obs[i].reaped.value].exit.Some?
    ensures ss[i].table.records[obs[i].reaped.value].parent == Some(obs[i].pid)
  {
    var p := obs[i].reaped.value;
    RunIsOk(ss, acts, obs);
    RunInv(ss, acts, obs, i);
    PidStep(ss[i], obs[i], ss[i + 1]);
    RecordAt(ss[i].table, p);
    if i < j {
      GoneForever(ss, obs, i + 1, j, p);
      GoneStep(ss[j], obs[j], ss[j + 1], p);
    }
  }

  // ------------------------------------------------------------ bounded waiting

  lemma QueueShift(s: Sys, s': Sys, k: nat) returns (k': nat)
    requires k < |s.queue| && IsRunnable(s.table.records, s.queue[k])
    requires NextThread(s.table.records, s.queue).0 != Some(s.queue[k])
    requires NextThread(s.table.records, s.queue).1 <= s'.queue
    ensures k' < k && k' < |s'.queue| && s'.queue[k'] == s.queue[k]
  {
    var j := NextThreadSplit(s.table.records, s.queue);
    var q := NextThread(s.table.records, s.queue).1;
    k' := k - j - 1;
    assert q[k'] == s.queue[k];
    assert s'.queue[k'] == q[k'];
  }

  /** One iteration: either the thread at index k was chosen, or it stays runnable and moves forward. */
  ghost predicate Advances(s: Sys, o: Obs, s': Sys, k: nat)
    requires k < |s.queue|
  {
    o.pid != s.queue[k].0 ==>
      exists k' :: 0 <= k' < k && k' < |s'.queue| && s'.queue[k'] == s.queue[k]
                   && IsRunnable(s'.table.records, s'.queue[k'])
  }

  lemma IterateAdvances(s: Sys, act: Action, s': Sys, obs: Obs, k: nat)
    requires Inv(s) && Iterate(s, act, s', obs)
    requires k < |s.queue| && IsRunnable(s.table.records, s.queue[k])
    ensures Advances(s, obs, s', k)
  {
    if obs.pid != s.queue[k].0 {
      IterateScheduled(s, act, s', obs);
      IterateQueue(s, act, s', obs);
      var k' := QueueShift(s, s', k);
      ExitedNotRunnable(s.table, s.queue[k]);
      IterateEnds(s, act, s', obs);
    }
  }

  lemma RunAdvances(ss: seq<Sys>, acts: seq<Action>, obs: seq<Obs>, i: nat, k: nat)
    requires IsRun(ss, acts, obs) && i < |acts|
    requires k < |ss[i].queue| && IsRunnable(ss[i].table.records, ss[i].queue[k])
    ensures Advances(ss[i], obs[i], ss[i + 1], k)
  {
    RunInv(ss, acts, obs, i);
    IterateAdvances(ss[i], acts[i], ss[i + 1], obs[i], k);
  }

  /**
    Bounded waiting: a runnable thread at index k of the run queue is scheduled within k + 1
    iterations, whatever forks, wakeups, exits and iteration orders happen in between.
   */
  lemma {:induction false} BoundedWaiting(ss: seq<Sys>, acts: seq<Action>, obs: seq<Obs>, i: nat, k: nat) returns (m: nat)
    requires IsRun(ss, acts, obs) && i + k < |acts|
    requires k < |ss[i].queue| && IsRunnable(ss[i].table.records, ss[i].queue[k])
    ensures i <= m <= i + k && obs[m].pid == ss[i].queue[k].0
    decreases k
  {
    RunAdvances(ss, acts, obs, i, k);
    if obs[i].pid == ss[i].queue[k].0 {
      m := i;
    } else {
      var s' := ss[i + 1];
      var k' :| 0 <= k' < k && k' < |s'.queue| && s'.queue[k'] == ss[i].queue[k]
                && IsRunnable(s'.table.records, s'.queue[k']);
      m := BoundedWaiting(ss, acts, obs, i + 1, k');
    }
  }

  /** The run queue never holds a thread twice. */
  lemma RunQueueDistinct(ss: seq<Sys>, acts: seq<Action>, obs: seq<Obs>, i: nat)
    requires IsRun(ss, acts, obs) && i < |ss|
    ensures NoDuplicates(ss[i].queue)
  {
    RunInv(ss, acts, obs, i);
  }
}
