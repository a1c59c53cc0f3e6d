/** What every iteration of the run loop keeps. */
module ProcessInvariants {
  import opened Words
  import opened Processes

  /** One record on its own: a single thread named after the process, and consistent states. */
  predicate RecordOk(p: Pid, r: Record) {
    && r.tid == p
    && r.threads.Keys == {p}
    && r.threads[p].tid == p && r.threads[p].pid == p
    && (r.exit.Some? <==> r.threads[p].state == Exited)
    && (r.exit.None? ==> r.state == r.threads[p].state)
    && (r.exit.Some? ==> r.state != Waiting)
    && (r.parent.Some? ==> r.parent.value < p)
    && (r.parent.None? <==> p == FIRST_PID)
  }

  ghost predicate RecordsOk(t: Table) {
    && FIRST_PID in t.records
    && (forall p :: p in t.records ==> RecordOk(p, t.records[p]) && p < t.nextPid)
    && (forall p :: p in t.queues ==> p < t.nextPid)
  }

  /** Who is whose child, and who has exited with what. */
  type Kin = map<Pid, (Option<Pid>, Option<int>)>

  function KinOf(t: Table): Kin {
    map p | p in t.records :: (t.records[p].parent, t.records[p].exit)
  }

  predicate IsChild(kin: Kin, p: Pid, c: Pid) {
    c in kin && kin[c].0 == Some(p)
  }

  predicate LiveChild(kin: Kin, p: Pid, c: Pid) {
    IsChild(kin, p, c) && kin[c].1.None?
  }

  /** A wait queue holds exactly the exited children of p, each once and with its status. */
  ghost predicate QueueExact(kin: Kin, p: Pid, q: Queue) {
    && (forall k :: 0 <= k < |q| ==> IsChild(kin, p, q[k].0) && kin[q[k].0].1 == Some(q[k].1))
    && (forall c :: IsChild(kin, p, c) && kin[c].1.Some? ==> Queued(q, c))
    && (forall i, j :: 0 <= i < j < |q| ==> q[i].0 != q[j].0)
  }

  function QueueIn(queues: map<Pid, Queue>, p: Pid): Queue { if p in queues then queues[p] else [] }

  ghost predicate QueuesExact(kin: Kin, queues: map<Pid, Queue>) {
    forall p :: p in kin ==> QueueExact(kin, p, QueueIn(queues, p))
  }

  /** p's children list is exactly the records whose parent is p. */
  ghost predicate ListExact(kin: Kin, p: Pid, children: seq<Pid>) {
    NoDuplicates(children) && forall c :: c in children <==> IsChild(kin, p, c)
  }

  ghost predicate ChildrenExact(kin: Kin, records: map<Pid, Record>) {
    forall p :: p in records ==> ListExact(kin, p, records[p].children)
  }

  ghost predicate HasLiveChild(kin: Kin, p: Pid) {
    exists c :: LiveChild(kin, p, c)
  }

  /** No lost wakeup: whoever waits still has a child that has not exited. */
  ghost predicate WaitersOk(kin: Kin, records: map<Pid, Record>) {
    forall p :: p in records && records[p].state == Waiting ==> HasLiveChild(kin, p)
  }

  ghost predicate TableInv(t: Table) {
    var kin := KinOf(t);
    RecordsOk(t) && QueuesExact(kin, t.queues) && ChildrenExact(kin, t.records) && WaitersOk(kin, t.records)
  }

  ghost predicate Inv(s: Sys) {
    && TableInv(s.table)
    && NoDuplicates(s.queue)
    && s.exitCode == s.table.records[FIRST_PID].exit
  }

  /** Every runnable thread is in the run queue. */
  ghost predicate Ready(s: Sys) {
    forall p :: p in s.table.records && IsRunnable(s.table.records, (p, p)) ==> (p, p) in s.queue
  }

  // ------------------------------------------------------------ the queue

  /** What next_thread does: it drops a prefix without runnable threads and rotates the next one. */
  lemma {:induction false} NextThreadSplit(records: map<Pid, Record>, q: RunQueue) returns (k: nat)
    ensures var (next, r) := NextThread(records, q);
            && k <= |q|
            && (forall i :: 0 <= i < k ==> !IsRunnable(records, q[i]))
            && (next.None? <==> k == |q|)
            && (next.None? ==> r == [])
            && (next.Some? ==> next == Some(q[k]) && IsRunnable(records, q[k]) && r == q[k + 1..] + [q[k]])
  {
    if q == [] || IsRunnable(records, q[0]) {
      k := 0;
    } else {
      var j := NextThreadSplit(records, q[1..]);
      k := j + 1;
      assert forall i :: 0 < i < k ==> q[i] == q[1..][i - 1];
    }
  }

  lemma RotateNoDuplicates(q: RunQueue, k: nat)
    requires k < |q| && NoDuplicates(q)
    ensures NoDuplicates(q[k + 1..] + [q[k]])
  {
  }

  lemma EnqueuedNoDuplicates(records: map<Pid, Record>, q: RunQueue, r: RunQueue)
    requires NoDuplicates(q) && EnqueuedAll(records, q, r)
    ensures NoDuplicates(r)
  {
    forall i, j | 0 <= i < j < |r| ensures r[i] != r[j] {
      if j >= |q| {
        assert r[i] in r[..j];
      } else {
        assert q[i] == r[i] && q[j] == r[j];
      }
    }
  }

  /** With the run queue refilled, every runnable thread is in it. */
  lemma EnqueuedReady(s: Sys, q: RunQueue)
    requires RecordsOk(s.table) && EnqueuedAll(s.table.records, q, s.queue)
    ensures Ready(s)
  {
    forall p | p in s.table.records && IsRunnable(s.table.records, (p, p)) ensures (p, p) in s.queue {
      assert Offered(s.table.records[p].threads[p], (p, p));
      assert Offers(s.table.records, (p, p));
    }
  }

  // ------------------------------------------------------------ table steps

  lemma SyncedIsExact(t: Table, pid: Pid, children: seq<Pid>)
    requires RecordsOk(t) && Synced(Taken(t, pid).records, pid, children)
    ensures ListExact(KinOf(t), pid, children)
  {
    forall c ensures c in children <==> IsChild(KinOf(t), pid, c) {
      if c == pid && pid in t.records { assert RecordOk(pid, t.records[pid]); }
    }
  }

  lemma PutRecords(t: Table, pid: Pid, r: Record)
    requires RecordsOk(t) && RecordOk(pid, r) && pid < t.nextPid
    ensures RecordsOk(Put(t, pid, r))
  {
  }

  lemma PutChildren(kin: Kin, records: map<Pid, Record>, pid: Pid, r: Record)
    requires ChildrenExact(kin, records) && ListExact(kin, pid, r.children)
    ensures ChildrenExact(kin, records[pid := r])
  {
  }

  lemma PutWaiters(kin: Kin, records: map<Pid, Record>, pid: Pid, r: Record)
    requires WaitersOk(kin, records) && (r.state == Waiting ==> HasLiveChild(kin, pid))
    ensures WaitersOk(kin, records[pid := r])
  {
  }

  /** Replacing one record without touching its family ties. */
  lemma ReplaceStep(t: Table, pid: Pid, r: Record)
    requires TableInv(t) && pid in t.records
    requires RecordOk(pid, r) && r.parent == t.records[pid].parent && r.exit == t.records[pid].exit
    requires ListExact(KinOf(t), pid, r.children)
    requires r.state == Waiting ==> HasLiveChild(KinOf(t), pid)
    ensures TableInv(Put(t, pid, r))
  {
    assert KinOf(Put(t, pid, r)) == KinOf(t);
    PutRecords(t, pid, r);
    PutChildren(KinOf(t), t.records, pid, r);
    PutWaiters(KinOf(t), t.records, pid, r);
  }

  // -- a new child

  predicate KinBelow(kin: Kin, n: Pid) {
    forall c :: c in kin ==> c < n && (kin[c].0.Some? ==> kin[c].0.value < n)
  }

  lemma ForkQueues(kin: Kin, queues: map<Pid, Queue>, pid: Pid, n: Pid)
    requires QueuesExact(kin, queues) && KinBelow(kin, n) && n !in queues
    ensures QueuesExact(kin[n := (Some(pid), None)], queues[n := []][pid := QueueIn(queues[n := []], pid)])
    ensures pid != n ==> QueuesExact(kin[n := (Some(pid), None)], queues[n := []][pid := QueueIn(queues, pid)])
  {
    var kin' := kin[n := (Some(pid), None)];
    forall p, c | p != pid ensures IsChild(kin', p, c) <==> IsChild(kin, p, c) {}
    forall p | p in kin ensures QueueExact(kin', p, QueueIn(queues, p)) {
      assert QueueExact(kin, p, QueueIn(queues, p));
    }
    assert QueueExact(kin', n, []);
  }

  lemma ForkChildren(kin: Kin, records: map<Pid, Record>, pid: Pid, r: Record, n: Pid)
    requires ChildrenExact(kin, records) && KinBelow(kin, n) && n != pid
    requires ListExact(kin[n := (Some(pid), None)], pid, r.children)
    ensures ChildrenExact(kin[n := (Some(pid), None)], records[n := NewRecord(n, Some(pid))][pid := r])
  {
    var kin', records' := kin[n := (Some(pid), None)], records[n := NewRecord(n, Some(pid))][pid := r];
    forall p | p in records' ensures ListExact(kin', p, records'[p].children) {
      if p != n && p != pid { assert ListExact(kin, p, records[p].children); }
    }
  }

  lemma MoreKinWaiters(kin: Kin, records: map<Pid, Record>, n: Pid, v: (Option<Pid>, Option<int>))
    requires WaitersOk(kin, records) && n !in kin
    ensures WaitersOk(kin[n := v], records)
  {
    forall p | p in records && records[p].state == Waiting ensures HasLiveChild(kin[n := v], p) {
      var c :| LiveChild(kin, p, c);
      assert LiveChild(kin[n := v], p, c);
    }
  }

  /** What a successful fork amounts to once the parent is put back: the next pid, a fresh record. */
  lemma ForkForm(t: Table, pid: Pid, r: Record)
    requires RecordsOk(t) && pid in t.records
    ensures var n := t.nextPid;
            var (e, child) := Fork(Taken(t, pid), pid, NoFault);
            && child == Some(n) && n != pid && n !in t.records
            && e.records == (t.records - {pid})[n := NewRecord(n, Some(pid))]
            && Put(e, pid, r) == Table(t.records[n := NewRecord(n, Some(pid))][pid := r],
                                       t.queues[n := []][pid := QueueIn(t.queues, pid)], n + 1)
  {
    var n := t.nextPid;
    assert n !in t.records && n !in t.queues;
    assert FreshFrom(Taken(t, pid), n) == n;
    var e := Fork(Taken(t, pid), pid, NoFault).0;
    assert Put(e, pid, r).records == t.records[n := NewRecord(n, Some(pid))][pid := r];
  }

  lemma ForkKin(t: Table, pid: Pid, r: Record, n: Pid, t': Table)
    requires pid in t.records && n !in t.records && r.parent == t.records[pid].parent && r.exit == t.records[pid].exit
    requires t'.records == t.records[n := NewRecord(n, Some(pid))][pid := r]
    ensures KinOf(t') == KinOf(t)[n := (Some(pid), None)]
  {
  }

  lemma ForkRecords(t: Table, pid: Pid, r: Record, n: Pid)
    requires RecordsOk(t) && pid in t.records && n == t.nextPid && RecordOk(pid, r)
    ensures RecordsOk(Table(t.records[n := NewRecord(n, Some(pid))][pid := r],
                            t.queues[n := []][pid := QueueIn(t.queues, pid)], n + 1))
  {
    PutRecords(t.(nextPid := n + 1), n, NewRecord(n, Some(pid)));
    PutRecords(Put(t.(nextPid := n + 1), n, NewRecord(n, Some(pid))), pid, r);
  }

  lemma ForkWaiters(kin: Kin, records: map<Pid, Record>, pid: Pid, r: Record, n: Pid)
    requires WaitersOk(kin, records) && n !in kin && r.state == Runnable
    ensures WaitersOk(kin[n := (Some(pid), None)], records[n := NewRecord(n, Some(pid))][pid := r])
  {
    var kin' := kin[n := (Some(pid), None)];
    MoreKinWaiters(kin, records, n, (Some(pid), None));
    PutWaiters(kin', records, n, NewRecord(n, Some(pid)));
    PutWaiters(kin', records[n := NewRecord(n, Some(pid))], pid, r);
  }

  /** A fork from t, put back as t'. */
  ghost predicate Forked(t: Table, pid: Pid, r: Record, n: Pid, t': Table) {
    && TableInv(t) && pid in t.records && n == t.nextPid
    && r == t.records[pid].(children := r.children) && r.state == Runnable
    && Synced((t.records - {pid})[n := NewRecord(n, Some(pid))], pid, r.children)
    && t' == Table(t.records[n := NewRecord(n, Some(pid))][pid := r],
                   t.queues[n := []][pid := QueueIn(t.queues, pid)], n + 1)
  }

  lemma ForkedLinks(t: Table, pid: Pid, r: Record, n: Pid, t': Table)
    requires Forked(t, pid, r, n, t')
    ensures RecordsOk(t') && WaitersOk(KinOf(t'), t'.records)
  {
    RecordAt(t, pid);
    ForkKin(t, pid, r, n, t');
    ForkRecords(t, pid, r, n);
    ForkWaiters(KinOf(t), t.records, pid, r, n);
  }

  lemma ForkedQueues(t: Table, pid: Pid, r: Record, n: Pid, t': Table)
    requires Forked(t, pid, r, n, t')
    ensures QueuesExact(KinOf(t'), t'.queues)
  {
    KinIsBelow(t);
    RecordAt(t, pid);
    ForkKin(t, pid, r, n, t');
    ForkQueues(KinOf(t), t.queues, pid, n);
  }

  lemma ForkedLists(t: Table, pid: Pid, r: Record, n: Pid, t': Table)
    requires Forked(t, pid, r, n, t')
    ensures ChildrenExact(KinOf(t'), t'.records)
  {
    KinIsBelow(t);
    RecordAt(t, pid);
    ForkKin(t, pid, r, n, t');
    ForkSynced(t, pid, n, r.children);
    ForkChildren(KinOf(t), t.records, pid, r, n);
  }

  /** A completed fork keeps the invariant. */
  lemma ForkStep(t: Table, pid: Pid, r: Record, n: Pid, t': Table)
    requires Forked(t, pid, r, n, t')
    ensures TableInv(t')
  {
    ForkedLinks(t, pid, r, n, t');
    ForkedQueues(t, pid, r, n, t');
    ForkedLists(t, pid, r, n, t');
  }

  lemma RecordAt(t: Table, p: Pid)
    requires RecordsOk(t) && p in t.records
    ensures RecordOk(p, t.records[p]) && p < t.nextPid && t.nextPid !in t.records && t.nextPid !in t.queues
    ensures forall children :: RecordOk(p, t.records[p].(children := children))
  {
  }

  lemma KinIsBelow(t: Table)
    requires RecordsOk(t)
    ensures KinBelow(KinOf(t), t.nextPid)
  {
    forall c | c in KinOf(t) ensures c < t.nextPid && (KinOf(t)[c].0.Some? ==> KinOf(t)[c].0.value < t.nextPid) {
      assert RecordOk(c, t.records[c]);
    }
  }

  lemma ForkSynced(t: Table, pid: Pid, n: Pid, children: seq<Pid>)
    requires RecordsOk(t) && pid in t.records && n !in t.records
    requires Synced((t.records - {pid})[n := NewRecord(n, Some(pid))], pid, children)
    ensures ListExact(KinOf(t)[n := (Some(pid), None)], pid, children)
  {
    var kin' := KinOf(t)[n := (Some(pid), None)];
    assert RecordOk(pid, t.records[pid]);
    forall c ensures c in children <==> IsChild(kin', pid, c) {}
  }

  // -- a zombie child is reaped

  lemma ReapKin(t: Table, pid: Pid, q: Queue, k: nat)
    requires RecordsOk(t) && QueueExact(KinOf(t), pid, q) && k < |q|
    ensures var c := q[k].0;
            && IsChild(KinOf(t), pid, c) && KinOf(t)[c].1.Some?
            && c in t.records && c != pid && c != FIRST_PID
  {
    var c := q[k].0;
    assert IsChild(KinOf(t), pid, c);
    assert RecordOk(c, t.records[c]);
  }

  lemma ReapQueue(kin: Kin, pid: Pid, q: Queue, k: nat)
    requires QueueExact(kin, pid, q) && k < |q|
    ensures QueueExact(kin - {q[k].0}, pid, q[..k] + q[k + 1..])
  {
    var kin', q' := kin - {q[k].0}, q[..k] + q[k + 1..];
    forall i | 0 <= i < |q'| ensures q'[i] == q[if i < k then i else i + 1] {}
    forall c | IsChild(kin', pid, c) && kin'[c].1.Some? ensures Queued(q', c) {
      assert IsChild(kin, pid, c);
      var i :| 0 <= i < |q| && q[i].0 == c;
      assert q'[if i < k then i else i - 1].0 == c;
    }
  }

  lemma OtherQueue(kin: Kin, p: Pid, q: Queue, pid: Pid, c: Pid)
    requires QueueExact(kin, p, q) && IsChild(kin, pid, c) && p != pid
    ensures QueueExact(kin - {c}, p, q)
  {
    assert forall x :: IsChild(kin - {c}, p, x) <==> IsChild(kin, p, x);
  }

  lemma ReapWaitQueues(kin: Kin, queues: map<Pid, Queue>, pid: Pid, q: Queue, k: nat)
    requires QueuesExact(kin, queues) && pid in kin && q == QueueIn(queues, pid) && k < |q| && q[k].0 != pid
    ensures QueuesExact(kin - {q[k].0}, queues[pid := q[..k] + q[k + 1..]] - {q[k].0})
  {
    var c := q[k].0;
    var kin', queues' := kin - {c}, queues[pid := q[..k] + q[k + 1..]] - {c};
    forall p | p in kin' ensures QueueExact(kin', p, QueueIn(queues', p)) {
      assert QueueExact(kin, pid, q) && QueueExact(kin, p, QueueIn(queues, p));
      if p == pid { ReapQueue(kin, pid, q, k); } else { OtherQueue(kin, p, QueueIn(queues, p), pid, c); }
    }
  }

  lemma ReapLists(kin: Kin, records: map<Pid, Record>, pid: Pid, c: Pid, r: Record)
    requires ChildrenExact(kin, records) && IsChild(kin, pid, c) && ListExact(kin - {c}, pid, r.children)
    ensures ChildrenExact(kin - {c}, (records - {c})[pid := r])
  {
    forall p | p in records && p != pid ensures ListExact(kin - {c}, p, records[p].children) {
      assert ListExact(kin, p, records[p].children);
      assert forall x :: IsChild(kin - {c}, p, x) <==> IsChild(kin, p, x);
    }
  }

  lemma ReapWaiters(kin: Kin, records: map<Pid, Record>, pid: Pid, c: Pid, r: Record)
    requires WaitersOk(kin, records) && c in kin && kin[c].1.Some? && r.state == Runnable
    ensures WaitersOk(kin - {c}, (records - {c})[pid := r])
  {
    forall p | p in records && records[p].state == Waiting ensures HasLiveChild(kin - {c}, p) {
      var x :| LiveChild(kin, p, x);
      assert LiveChild(kin - {c}, p, x);
    }
  }

  lemma ReapRecords(t: Table, pid: Pid, r: Record, c: Pid, queues: map<Pid, Queue>)
    requires RecordsOk(t) && pid in t.records && RecordOk(pid, r) && c != FIRST_PID
    requires forall p :: p in queues ==> p in t.queues || p == pid
    ensures RecordsOk(Table((t.records - {c})[pid := r], queues, t.nextPid))
  {
  }

  lemma ReapSynced(t: Table, pid: Pid, c: Pid, children: seq<Pid>)
    requires RecordsOk(t) && pid in t.records && Synced(t.records - {pid} - {c}, pid, children)
    ensures ListExact(KinOf(t) - {c}, pid, children)
  {
    assert RecordOk(pid, t.records[pid]);
    forall x ensures x in children <==> IsChild(KinOf(t) - {c}, pid, x) {}
  }

  /** Process pid, now r, has collected the k-th child c of its queue. */
  ghost predicate Reaped(t: Table, pid: Pid, r: Record, k: nat, c: Pid, t': Table) {
    var q := QueueIn(t.queues, pid);
    && TableInv(t) && pid in t.records && k < |q| && c == q[k].0
    && r == t.records[pid].(children := r.children) && r.state == Runnable
    && Synced(t.records - {pid} - {c}, pid, r.children)
    && t' == Table((t.records - {c})[pid := r], t.queues[pid := q[..k] + q[k + 1..]] - {c}, t.nextPid)
  }

  lemma ReapedChild(t: Table, pid: Pid, r: Record, k: nat, c: Pid, t': Table)
    requires Reaped(t, pid, r, k, c, t')
    ensures IsChild(KinOf(t), pid, c) && KinOf(t)[c].1.Some? && c in t.records && c != pid && c != FIRST_PID
  {
    var q := QueueIn(t.queues, pid);
    assert QueueExact(KinOf(t), pid, q);
    ReapKin(t, pid, q, k);
  }

  lemma ReapedKin(t: Table, pid: Pid, r: Record, k: nat, c: Pid, t': Table)
    requires Reaped(t, pid, r, k, c, t') && c != pid
    ensures KinOf(t') == KinOf(t) - {c}
  {
  }

  lemma ReapedRecords(t: Table, pid: Pid, r: Record, k: nat, c: Pid, t': Table)
    requires Reaped(t, pid, r, k, c, t') && c != FIRST_PID
    ensures RecordsOk(t')
  {
    RecordAt(t, pid);
    ReapRecords(t, pid, r, c, t'.queues);
  }

  lemma ReapedLinks(t: Table, pid: Pid, r: Record, k: nat, c: Pid, t': Table)
    requires Reaped(t, pid, r, k, c, t')
    ensures KinOf(t') == KinOf(t) - {c} && RecordsOk(t')
    ensures IsChild(KinOf(t), pid, c) && KinOf(t)[c].1.Some? && c != pid
  {
    ReapedChild(t, pid, r, k, c, t');
    ReapedKin(t, pid, r, k, c, t');
    ReapedRecords(t, pid, r, k, c, t');
  }

  lemma ReapedQueues(t: Table, pid: Pid, r: Record, k: nat, c: Pid, t': Table)
    requires Reaped(t, pid, r, k, c, t')
    ensures QueuesExact(KinOf(t'), t'.queues)
  {
    ReapedLinks(t, pid, r, k, c, t');
    ReapWaitQueues(KinOf(t), t.queues, pid, QueueIn(t.queues, pid), k);
  }

  lemma ReapedLists(t: Table, pid: Pid, r: Record, k: nat, c: Pid, t': Table)
    requires Reaped(t, pid, r, k, c, t')
    ensures ChildrenExact(KinOf(t'), t'.records) && WaitersOk(KinOf(t'), t'.records)
  {
    ReapedLinks(t, pid, r, k, c, t');
    ReapSynced(t, pid, c, r.children);
    ReapLists(KinOf(t), t.records, pid, c, r);
    ReapWaiters(KinOf(t), t.records, pid, c, r);
  }

  /** A reaped child keeps the invariant. */
  lemma ReapStep(t: Table, pid: Pid, r: Record, k: nat, c: Pid, t': Table)
    requires Reaped(t, pid, r, k, c, t')
    ensures TableInv(t')
  {
    ReapedLinks(t, pid, r, k, c, t');
    ReapedQueues(t, pid, r, k, c, t');
    ReapedLists(t, pid, r, k, c, t');
  }

  // -- a process exits

  function Woken(r: Record): Record {
    r.(state := Runnable, threads := WakeThreads(r.threads))
  }

  lemma WokenOk(p: Pid, r: Record)
    requires RecordOk(p, r)
    ensures RecordOk(p, Woken(r)) && Woken(r).state == Runnable
    ensures Woken(r).threads[p].state == if r.exit.Some? then Exited else Runnable
  {
  }

  lemma MarkedOk(p: Pid, r: Record, code: int)
    requires RecordOk(p, r)
    ensures RecordOk(p, MarkExited(r, code))
  {
  }

  /** What an exit amounts to: the record marked, the parent woken and told. */
  function ExitTable(t: Table, pid: Pid, code: int): Table
    requires pid in t.records
  {
    var r := t.records[pid];
    var told := if r.parent.None? || Queued(t.QueueOf(r.parent.value), pid) then t
                else Enqueued(t, r.parent.value, pid, code);
    var woken := if r.parent.Some? then Wake(told, r.parent.value) else told;
    Put(woken, pid, MarkExited(r, code))
  }

  /** Both exit paths, taken with the record out of the table, come to the same. */
  lemma ExitForm(t: Table, pid: Pid, code: int)
    requires RecordsOk(t) && pid in t.records
    ensures ExitProcess(Taken(t, pid), pid, code) == Taken(t, pid)
    ensures Put(RecordExit(Taken(t, pid), pid, t.records[pid].parent, code), pid, MarkExited(t.records[pid], code))
            == ExitTable(t, pid, code)
  {
    RecordAt(t, pid);
    var parent, r := t.records[pid].parent, MarkExited(t.records[pid], code);
    assert ExitProcess(Taken(t, pid), pid, code) == Taken(t, pid);
    if parent.Some? {
      var p := parent.value;
      var told := if Queued(t.QueueOf(p), pid) then t else Enqueued(t, p, pid, code);
      WakeTaken(told, pid, p, r);
    } else {
      assert (t.records - {pid})[pid := r] == t.records[pid := r];
    }
  }

  /** Waking another process commutes with taking a record out and putting it back. */
  lemma WakeTaken(t: Table, pid: Pid, p: Pid, r: Record)
    requires p != pid
    ensures Put(Wake(Taken(t, pid), p), pid, r) == Put(Wake(t, p), pid, r)
  {
    assert Put(Wake(Taken(t, pid), p), pid, r).records == Put(Wake(t, p), pid, r).records;
  }

  /** The records after an exit, one by one. */
  ghost predicate ExitedRecords(records: map<Pid, Record>, pid: Pid, code: int, records': map<Pid, Record>)
    requires pid in records
  {
    && records'.Keys == records.Keys
    && records'[pid] == MarkExited(records[pid], code)
    && (forall p :: p in records && p != pid ==>
                      records'[p] == if records[pid].parent == Some(p) then Woken(records[p]) else records[p])
  }

  lemma ExitKin(t: Table, pid: Pid, code: int)
    requires pid in t.records && t.records[pid].parent != Some(pid)
    ensures ExitedRecords(t.records, pid, code, ExitTable(t, pid, code).records)
    ensures ExitTable(t, pid, code).nextPid == t.nextPid
  {
  }

  lemma ExitQueueKeys(t: Table, pid: Pid, code: int)
    requires RecordsOk(t) && pid in t.records
    ensures forall p :: p in ExitTable(t, pid, code).queues ==> p < t.nextPid
  {
    RecordAt(t, pid);
    var parent := t.records[pid].parent;
    if parent.Some? {
      assert forall p :: p in ExitTable(t, pid, code).queues ==> p in t.queues || p == parent.value;
    }
  }

  lemma ExitKinOf(t: Table, pid: Pid, code: int, t': Table)
    requires pid in t.records && ExitedRecords(t.records, pid, code, t'.records)
    ensures KinOf(t') == KinOf(t)[pid := (t.records[pid].parent, Some(code))]
  {
  }

  lemma ExitRecords(t: Table, pid: Pid, code: int, t': Table)
    requires RecordsOk(t) && pid in t.records && ExitedRecords(t.records, pid, code, t'.records)
    requires t'.nextPid == t.nextPid && forall p :: p in t'.queues ==> p < t.nextPid
    ensures RecordsOk(t')
  {
    forall p | p in t'.records ensures RecordOk(p, t'.records[p]) && p < t'.nextPid {
      RecordAt(t, p);
      WokenOk(p, t.records[p]);
      MarkedOk(p, t.records[p], code);
    }
  }

  lemma ExitQueue(kin: Kin, p: Pid, q: Queue, pid: Pid, code: int)
    requires QueueExact(kin, p, q) && IsChild(kin, p, pid) && kin[pid].1.None?
    ensures !Queued(q, pid)
    ensures QueueExact(kin[pid := (Some(p), Some(code))], p, q + [(pid, code)])
  {
    var kin', q' := kin[pid := (Some(p), Some(code))], q + [(pid, code)];
    forall c | IsChild(kin', p, c) && kin'[c].1.Some? ensures Queued(q', c) {
      if c == pid {
        assert q'[|q|].0 == c;
      } else {
        assert IsChild(kin, p, c);
        var k :| 0 <= k < |q| && q[k].0 == c;
        assert q'[k].0 == c;
      }
    }
  }

  lemma OtherExit(kin: Kin, p: Pid, q: Queue, pid: Pid, v: (Option<Pid>, Option<int>))
    requires QueueExact(kin, p, q) && pid in kin && kin[pid].0 == v.0 && v.0 != Some(p)
    ensures QueueExact(kin[pid := v], p, q)
  {
    assert forall x :: IsChild(kin[pid := v], p, x) <==> IsChild(kin, p, x);
  }

  lemma ExitWaitQueues(kin: Kin, t: Table, pid: Pid, code: int)
    requires QueuesExact(kin, t.queues) && pid in t.records && pid in kin
    requires kin[pid] == (t.records[pid].parent, None)
    ensures QueuesExact(kin[pid := (t.records[pid].parent, Some(code))], ExitTable(t, pid, code).queues)
  {
    var parent := t.records[pid].parent;
    var kin', queues' := kin[pid := (parent, Some(code))], ExitTable(t, pid, code).queues;
    forall p | p in kin' ensures QueueExact(kin', p, QueueIn(queues', p)) {
      if parent == Some(p) {
        ExitQueue(kin, p, QueueIn(t.queues, p), pid, code);
      } else {
        OtherExit(kin, p, QueueIn(t.queues, p), pid, (parent, Some(code)));
      }
    }
  }

  lemma ExitLists(kin: Kin, records: map<Pid, Record>, pid: Pid, code: int, records': map<Pid, Record>)
    requires ChildrenExact(kin, records) && pid in records && pid in kin && kin[pid].0 == records[pid].parent
    requires ExitedRecords(records, pid, code, records')
    ensures ChildrenExact(kin[pid := (records[pid].parent, Some(code))], records')
  {
    var kin' := kin[pid := (records[pid].parent, Some(code))];
    forall p | p in records' ensures ListExact(kin', p, records'[p].children) {
      assert ListExact(kin, p, records[p].children);
      assert records'[p].children == records[p].children;
      assert forall x :: IsChild(kin', p, x) <==> IsChild(kin, p, x);
    }
  }

  lemma ExitWaiters(kin: Kin, records: map<Pid, Record>, pid: Pid, code: int, records': map<Pid, Record>)
    requires WaitersOk(kin, records) && pid in records && pid in kin && kin[pid].0 == records[pid].parent
    requires ExitedRecords(records, pid, code, records')
    ensures WaitersOk(kin[pid := (records[pid].parent, Some(code))], records')
  {
    var kin' := kin[pid := (records[pid].parent, Some(code))];
    forall p | p in records' && records'[p].state == Waiting ensures HasLiveChild(kin', p) {
      var c :| LiveChild(kin, p, c);
      assert LiveChild(kin', p, c);
    }
  }

  ghost predicate Exiting(t: Table, pid: Pid) {
    TableInv(t) && pid in t.records && t.records[pid].exit.None?
  }

  lemma ExitedLinks(t: Table, pid: Pid, code: int)
    requires Exiting(t, pid)
    ensures RecordsOk(ExitTable(t, pid, code))
    ensures ExitedRecords(t.records, pid, code, ExitTable(t, pid, code).records)
    ensures KinOf(ExitTable(t, pid, code)) == KinOf(t)[pid := (t.records[pid].parent, Some(code))]
  {
    RecordAt(t, pid);
    ExitKin(t, pid, code);
    ExitKinOf(t, pid, code, ExitTable(t, pid, code));
    ExitQueueKeys(t, pid, code);
    ExitRecords(t, pid, code, ExitTable(t, pid, code));
  }

  lemma ExitedQueues(t: Table, pid: Pid, code: int)
    requires Exiting(t, pid)
    ensures QueuesExact(KinOf(ExitTable(t, pid, code)), ExitTable(t, pid, code).queues)
  {
    ExitedLinks(t, pid, code);
    ExitWaitQueues(KinOf(t), t, pid, code);
  }

  lemma ExitedRest(t: Table, pid: Pid, code: int, t': Table)
    requires Exiting(t, pid) && t' == ExitTable(t, pid, code)
    ensures ChildrenExact(KinOf(t'), t'.records) && WaitersOk(KinOf(t'), t'.records)
  {
    ExitedLinks(t, pid, code);
    ExitLists(KinOf(t), t.records, pid, code, t'.records);
    ExitWaiters(KinOf(t), t.records, pid, code, t'.records);
  }

  /** An exit keeps the invariant. */
  lemma ExitStep(t: Table, pid: Pid, code: int)
    requires Exiting(t, pid)
    ensures TableInv(ExitTable(t, pid, code))
  {
    ExitedLinks(t, pid, code);
    ExitedQueues(t, pid, code);
    ExitedRest(t, pid, code, ExitTable(t, pid, code));
  }

  // ------------------------------------------------------------ the loop body

  /** A scheduled thread belongs to a live, runnable process in the table: neither `continue` is taken. */
  lemma ScheduledIsRunnable(s: Sys)
    requires RecordsOk(s.table) && NextThread(s.table.records, s.queue).0.Some?
    ensures var e := NextThread(s.table.records, s.queue).0.value;
            && e.0 in s.table.records && e.1 == e.0
            && s.table.records[e.0].state == Runnable && s.table.records[e.0].exit.None?
  {
    var k := NextThreadSplit(s.table.records, s.queue);
    assert RecordOk(s.queue[k].0, s.table.records[s.queue[k].0]);
  }

  lemma WaitBlocksOnLiveChild(t: Table, pid: Pid, requested: Option<Pid>)
    requires TableInv(t) && pid in t.records
    requires FirstWanted(Taken(t, pid).QueueOf(pid), requested, 0) < 0 && HasChild(Taken(t, pid), pid, requested)
    ensures HasLiveChild(KinOf(t), pid)
  {
    var q := t.QueueOf(pid);
    var c :| c in t.records && c != pid && t.records[c].parent == Some(pid) && Wanted(requested, c);
    assert IsChild(KinOf(t), pid, c);
    assert QueueExact(KinOf(t), pid, QueueIn(t.queues, pid));
    assert !Queued(q, c);
    assert LiveChild(KinOf(t), pid, c);
  }

  lemma BlockedOk(p: Pid, r: Record)
    requires RecordOk(p, r) && r.exit.None?
    ensures RecordOk(p, Blocked(r)) && Blocked(r).threads[p].state == Waiting
  {
  }

  /** Reaping in the loop, put back in the table's own terms. */
  lemma WaitForm(t: Table, pid: Pid, requested: Option<Pid>, r: Record, q: Queue, k: nat)
    requires q == t.QueueOf(pid) && k < |q| && FirstWanted(q, requested, 0) == k && q[k].0 != pid
    ensures var c := q[k].0;
            var (e, child) := Wait4(Taken(t, pid), pid, requested);
            && child == Some(c)
            && e.records == t.records - {pid} - {c}
            && Put(e, pid, r) == Table((t.records - {c})[pid := r], t.queues[pid := q[..k] + q[k + 1..]] - {c}, t.nextPid)
  {
    var c := q[k].0;
    var e := Wait4(Taken(t, pid), pid, requested).0;
    assert Put(e, pid, r).records == (t.records - {c})[pid := r];
  }
}
