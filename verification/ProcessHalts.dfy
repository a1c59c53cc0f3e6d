/**
  The one arm of the run loop that does not refill the run queue: a halted guest.
  It can strand a live process, and this module says exactly when.
 */
module ProcessHalts {
  import opened Words
  import opened Processes
  import opened ProcessInvariants
  import opened ProcessSteps
  import opened ProcessRuns

  /** Some other process has a runnable thread in the run queue. */
  ghost predicate OtherQueued(s: Sys, pid: Pid) {
    exists e :: e in s.queue && e.0 != pid && IsRunnable(s.table.records, e)
  }

  /** The parent waits and has not yet been dropped from the run queue. */
  predicate ParentStillQueued(s: Sys, pid: Pid)
    requires pid in s.table.records
  {
    var parent := s.table.records[pid].parent;
    && parent.Some? && parent.value in s.table.records
    && s.table.records[parent.value].exit.None? && s.table.records[parent.value].state == Waiting
    && (parent.value, parent.value) in NextThread(s.table.records, s.queue).1
  }

  predicate OthersExited(s: Sys, pid: Pid) {
    forall r :: r in s.table.records && r != pid ==> s.table.records[r].exit.Some?
  }

  lemma HaltEffect(s: Sys, code: int, s': Sys, obs: Obs)
    requires Inv(s) && Iterate(s, DoHalt(code), s', obs)
    ensures Scheduled(s, obs.pid) && RecordsOk(s'.table)
    ensures ExitedRecords(s.table.records, obs.pid, code, s'.table.records)
    ensures s'.queue == NextThread(s.table.records, s.queue).1
  {
    HaltTable(s, code, s', obs);
    ExitedLinks(s.table, obs.pid, code);
  }

  lemma HaltTable(s: Sys, code: int, s': Sys, obs: Obs)
    requires Inv(s) && Iterate(s, DoHalt(code), s', obs)
    ensures Scheduled(s, obs.pid) && s'.table == ExitTable(s.table, obs.pid, code)
    ensures s'.queue == NextThread(s.table.records, s.queue).1
  {
    IterateScheduled(s, DoHalt(code), s', obs);
    ExitForm(s.table, obs.pid, code);
  }

  /** Rotation keeps every runnable thread in the queue, and adds none. */
  lemma RotationKeeps(records: map<Pid, Record>, q: RunQueue, e: (Pid, Pid))
    requires NextThread(records, q).0.Some?
    ensures e in q && IsRunnable(records, e) ==> e in NextThread(records, q).1
    ensures e in NextThread(records, q).1 ==> e in q
  {
    var k := NextThreadSplit(records, q);
    assert q == q[..k] + [q[k]] + q[k + 1..];
  }

  lemma HaltProgresses(s: Sys, pid: Pid, code: int, s': Sys)
    requires RecordsOk(s.table) && NextThread(s.table.records, s.queue).0.Some?
    requires pid in s.table.records && ExitedRecords(s.table.records, pid, code, s'.table.records)
    requires s'.queue == NextThread(s.table.records, s.queue).1
    requires OtherQueued(s, pid) || ParentStillQueued(s, pid) || OthersExited(s, pid)
    ensures NextThread(s'.table.records, s'.queue).0.Some? || AllExited(s'.table)
  {
    NextThreadFinds(s'.table.records, s'.queue);
    if OtherQueued(s, pid) {
      var e :| e in s.queue && e.0 != pid && IsRunnable(s.table.records, e);
      RotationKeeps(s.table.records, s.queue, e);
      ExitedNotRunnable(s.table, e);
      OtherStaysRunnable(s.table, pid, code, s'.table, e);
    } else if ParentStillQueued(s, pid) {
      var p := s.table.records[pid].parent.value;
      RecordAt(s.table, p);
      RecordAt(s.table, pid);
      WokenOk(p, s.table.records[p]);
      assert (p, p) in s'.queue && IsRunnable(s'.table.records, (p, p));
    }
  }

  lemma OtherStaysRunnable(t: Table, pid: Pid, code: int, t': Table, e: (Pid, Pid))
    requires RecordsOk(t) && pid in t.records && ExitedRecords(t.records, pid, code, t'.records)
    requires IsRunnable(t.records, e) && e.0 != pid && e.1 == e.0
    ensures IsRunnable(t'.records, e)
  {
    RecordAt(t, e.0);
    WokenOk(e.0, t.records[e.0]);
  }

  /** What is runnable after the exit was runnable before it, or is the parent that it woke. */
  lemma RunnableSince(t: Table, pid: Pid, code: int, t': Table, e: (Pid, Pid))
    requires RecordsOk(t) && RecordsOk(t') && pid in t.records && ExitedRecords(t.records, pid, code, t'.records)
    requires IsRunnable(t'.records, e)
    ensures e.0 != pid && e.1 == e.0 && e.0 in t.records && t.records[e.0].exit.None?
    ensures IsRunnable(t.records, e) || (t.records[pid].parent == Some(e.0) && t.records[e.0].state == Waiting)
  {
    ExitedNotRunnable(t', e);
    RecordAt(t, e.0);
    WokenOk(e.0, t.records[e.0]);
  }

  lemma HaltStrands(s: Sys, pid: Pid, code: int, s': Sys)
    requires RecordsOk(s.table) && RecordsOk(s'.table) && NextThread(s.table.records, s.queue).0.Some?
    requires pid in s.table.records && ExitedRecords(s.table.records, pid, code, s'.table.records)
    requires s'.queue == NextThread(s.table.records, s.queue).1
    requires NextThread(s'.table.records, s'.queue).0.Some? || AllExited(s'.table)
    ensures OtherQueued(s, pid) || ParentStillQueued(s, pid) || OthersExited(s, pid)
  {
    if AllExited(s'.table) {
      forall r | r in s.table.records && r != pid ensures s.table.records[r].exit.Some? {
        assert s'.table.records[r].exit.Some?;
      }
    } else {
      NextThreadFinds(s'.table.records, s'.queue);
      var e :| e in s'.queue && IsRunnable(s'.table.records, e);
      RunnableSince(s.table, pid, code, s'.table, e);
      RotationKeeps(s.table.records, s.queue, e);
    }
  }

  /**
    A halt leaves a schedulable thread, or nothing alive, exactly when another runnable thread was
    queued, the waiting parent was still queued, or all others had exited.
   */
  lemma HaltKeepsProgressIff(s: Sys, code: int, s': Sys, obs: Obs)
    requires Inv(s) && Iterate(s, DoHalt(code), s', obs)
    ensures obs.pid in s.table.records
    ensures (NextThread(s'.table.records, s'.queue).0.Some? || AllExited(s'.table)) <==>
            (OtherQueued(s, obs.pid) || ParentStillQueued(s, obs.pid) || OthersExited(s, obs.pid))
  {
    HaltEffect(s, code, s', obs);
    if OtherQueued(s, obs.pid) || ParentStillQueued(s, obs.pid) || OthersExited(s, obs.pid) {
      HaltProgresses(s, obs.pid, code, s');
    }
    if NextThread(s'.table.records, s'.queue).0.Some? || AllExited(s'.table) {
      HaltStrands(s, obs.pid, code, s');
    }
  }

  // ------------------------------------------------------------ a stranded parent

  const P: Pid := 1000
  const C: Pid := 1001

  function Family(parentState: ProcessState, childState: ProcessState, childExit: Option<int>, q: Queue): Table {
    Table(map[P := Record(P, map[P := Thread(P, P, parentState)], None, [C], parentState, None),
              C := Record(C, map[C := Thread(C, C, childState)], Some(P), [], childState, childExit)],
          map[P := q, C := []], 1002)
  }

  const BOTH: Table := Family(Runnable, Runnable, None, [])
  const WAITS: Table := Family(Waiting, Runnable, None, [])
  const HALTED: Table := Family(Runnable, Exited, Some(0), [(C, 0)])

  lemma OffersInFamily(t: Table, e: (Pid, Pid))
    requires t == BOTH || t == WAITS
    ensures Offers(t.records, e) <==> e == (C, C) || (t == BOTH && e == (P, P))
  {
    assert C in t.records && C in t.records[C].threads;
    assert P in t.records && P in t.records[P].threads;
    if e == (C, C) { assert Offered(t.records[C].threads[C], e); }
    if e == (P, P) && t == BOTH { assert Offered(t.records[P].threads[P], e); }
  }

  lemma AlreadyQueued(t: Table, q: RunQueue)
    requires t == BOTH || t == WAITS
    requires (C, C) in q && (t == BOTH ==> (P, P) in q)
    ensures EnqueuedAll(t.records, q, q)
  {
    forall e | Offers(t.records, e) ensures e in q { OffersInFamily(t, e); }
  }

  lemma HeadRuns(records: map<Pid, Record>, e: (Pid, Pid), rest: RunQueue)
    requires IsRunnable(records, e)
    ensures NextThread(records, [e] + rest) == (Some(e), rest + [e])
  {
  }

  lemma HeadDropped(records: map<Pid, Record>, e: (Pid, Pid), rest: RunQueue)
    requires !IsRunnable(records, e)
    ensures NextThread(records, [e] + rest) == NextThread(records, rest)
  {
    assert ([e] + rest)[1..] == rest;
  }

  lemma ForkEffect()
    ensures Dispatch(Taken(InitialTable(), P), P, DoFork(NoFault)) ==
            Effect(Table(map[C := NewRecord(C, Some(P))], map[P := [], C := []], 1002), Returns, Some(C), None)
  {
    var t := Taken(InitialTable(), P);
    assert t.records == map[] && t.nextPid == C;
    assert FreshFrom(t, C) == C;
  }

  lemma StrandFork()
    ensures Iterate(InitialSys(), DoFork(NoFault), Sys(BOTH, [(P, P), (C, C)], None), Obs(P, Some(C), None))
  {
    var s, s' := InitialSys(), Sys(BOTH, [(P, P), (C, C)], None);
    HeadRuns(s.table.records, (P, P), []);
    assert [(P, P)] + [] == s.queue && [] + [(P, P)] == [(P, P)];
    ForkEffect();
    var e := Dispatch(Taken(s.table, P), P, DoFork(NoFault));
    assert Synced(e.table.records, P, [C]);
    assert s'.table.records == e.table.records[P := s.table.records[P].(children := [C])];
    forall x ensures Offers(BOTH.records, x) <==> x in s'.queue { OffersInFamily(BOTH, x); }
    assert EnqueuedAll(s'.table.records, [(P, P)], s'.queue);
  }

  lemma StrandWait()
    ensures Iterate(Sys(BOTH, [(P, P), (C, C)], None), DoWait(None, false), Sys(WAITS, [(C, C), (P, P)], None),
                    Obs(P, None, None))
  {
    var s, s' := Sys(BOTH, [(P, P), (C, C)], None), Sys(WAITS, [(C, C), (P, P)], None);
    HeadRuns(s.table.records, (P, P), [(C, C)]);
    assert [(P, P)] + [(C, C)] == s.queue && [(C, C)] + [(P, P)] == s'.queue;
    var t := Taken(s.table, P);
    assert C in t.records && t.records[C].parent == Some(P) && Wanted(None, C);
    assert HasChild(t, P, None);
    assert Dispatch(t, P, DoWait(None, false)) == Effect(t, Blocks, None, None);
    assert Blocked(s.table.records[P]).threads == WAITS.records[P].threads;
    assert s'.table.records == t.records[P := Blocked(s.table.records[P])];
    AlreadyQueued(WAITS, s'.queue);
  }

  lemma StrandRun(q: RunQueue, r: RunQueue)
    requires NextThread(WAITS.records, q) == (Some((C, C)), r) && (C, C) in r
    ensures Iterate(Sys(WAITS, q, None), Run, Sys(WAITS, r, None), Obs(C, None, None))
  {
    var t := Taken(WAITS, C);
    assert Dispatch(t, C, Run) == Effect(t, Returns, None, None);
    assert Synced(t.records, C, []);
    assert WAITS.records == t.records[C := WAITS.records[C]];
    assert WAITS.records[P].state != BOTH.records[P].state;
    AlreadyQueued(WAITS, r);
  }

  lemma StrandHalt()
    ensures Iterate(Sys(WAITS, [(C, C)], None), DoHalt(0), Sys(HALTED, [(C, C)], None), Obs(C, None, None))
  {
    HeadRuns(WAITS.records, (C, C), []);
    assert [(C, C)] + [] == [(C, C)] && [] + [(C, C)] == [(C, C)];
    var t := Taken(WAITS, C);
    assert ExitProcess(t, C, 0) == t && t.QueueOf(P) == [];
    var u := RecordExit(t, C, Some(P), 0);
    assert u == Wake(Enqueued(t, P, C, 0), P);
    assert WakeThreads(WAITS.records[P].threads) == HALTED.records[P].threads;
    assert MarkThreads(WAITS.records[C].threads) == HALTED.records[C].threads;
    assert HALTED.records == u.records[C := MarkExited(WAITS.records[C], 0)];
    assert [] + [(C, 0)] == HALTED.queues[P];
    assert HALTED.queues == u.queues;
  }

  /** The run loop's own end: nobody to schedule, though the parent is alive. */
  lemma StrandEnd()
    ensures NextThread(HALTED.records, [(C, C)]).0.None? && !AllExited(HALTED)
  {
    HeadDropped(HALTED.records, (C, C), []);
    assert [(C, C)] + [] == [(C, C)];
    assert P in HALTED.records && HALTED.records[P].exit.None?;
  }

  lemma StrandRuns()
    ensures Iterate(Sys(WAITS, [(C, C), (P, P)], None), Run, Sys(WAITS, [(P, P), (C, C)], None), Obs(C, None, None))
    ensures Iterate(Sys(WAITS, [(P, P), (C, C)], None), Run, Sys(WAITS, [(C, C)], None), Obs(C, None, None))
  {
    HeadRuns(WAITS.records, (C, C), [(P, P)]);
    assert [(C, C)] + [(P, P)] == [(C, C), (P, P)] && [(P, P)] + [(C, C)] == [(P, P), (C, C)];
    StrandRun([(C, C), (P, P)], [(P, P), (C, C)]);
    HeadDropped(WAITS.records, (P, P), [(C, C)]);
    HeadRuns(WAITS.records, (C, C), []);
    assert [(C, C)] + [] == [(C, C)] && [] + [(C, C)] == [(C, C)];
    StrandRun([(P, P), (C, C)], [(C, C)]);
  }

  /**
    A run in which the parent forks, waits, is dropped from the run queue while the child runs,
    and is not queued again when the child halts: the loop then stops with a live process.
   */
  lemma HaltCanStrandALiveParent() returns (ss: seq<Sys>, acts: seq<Action>, obs: seq<Obs>)
    ensures IsRun(ss, acts, obs)
    ensures var last := ss[|acts|];
            && NextThread(last.table.records, last.queue).0.None?
            && !AllExited(last.table) && last.exitCode.None?
  {
    var s1, s2 := Sys(BOTH, [(P, P), (C, C)], None), Sys(WAITS, [(C, C), (P, P)], None);
    var s3, s4 := Sys(WAITS, [(P, P), (C, C)], None), Sys(WAITS, [(C, C)], None);
    ss, acts, obs := [InitialSys()], [], [];
    StrandFork();
    ss, acts, obs := RunMore(ss, acts, obs, InitialSys(), DoFork(NoFault), s1, Obs(P, Some(C), None));
    StrandWait();
    ss, acts, obs := RunMore(ss, acts, obs, s1, DoWait(None, false), s2, Obs(P, None, None));
    StrandRuns();
    ss, acts, obs := RunMore(ss, acts, obs, s2, Run, s3, Obs(C, None, None));
    ss, acts, obs := RunMore(ss, acts, obs, s3, Run, s4, Obs(C, None, None));
    StrandHalt();
    ss, acts, obs := RunMore(ss, acts, obs, s4, DoHalt(0), Sys(HALTED, [(C, C)], None), Obs(C, None, None));
    StrandEnd();
  }
}
