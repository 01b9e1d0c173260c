/**
 What holds over every run of the write path: no byte a successful Flush took charge of is
 lost, every job is accounted for, uploads carry exactly what was written, and Stop ends.
 */
module WriteBackTheorems {
  import opened Buffers
  import opened Ids
  import opened WriteBack
  import opened WriteBackProofs

  predicate RunsFrom(c: Config, ss: seq<State>, es: seq<Event>) {
    |ss| == |es| + 1 && forall i :: 0 <= i < |es| ==> Enabled(c, ss[i], es[i]) && ss[i + 1] == Step(c, ss[i], es[i])
  }

  predicate Run(c: Config, n: nat, ss: seq<State>, es: seq<Event>) {
    RunsFrom(c, ss, es) && ss[0] == Init(n)
  }

  lemma {:induction false} RunKeepsInv(c: Config, n: nat, ss: seq<State>, es: seq<Event>, k: nat)
    requires Run(c, n, ss, es) && k < |ss|
    ensures Inv(c, ss[k])
  {
    if k == 0 {
    } else {
      RunKeepsInv(c, n, ss, es, k - 1);
      StepKeepsInv(c, ss[k - 1], es[k - 1]);
    }
  }

  lemma {:induction false} RunGrows(c: Config, n: nat, ss: seq<State>, es: seq<Event>, i: nat, k: nat)
    requires Run(c, n, ss, es) && i <= k < |ss|
    ensures Grows(ss[i].local.staged, ss[i].log.puts, ss[k].local.staged, ss[k].log.puts)
  {
    hide HandleEnabled, WorkerEnabled, HandleStep, WorkerStep, Inv;
    if i == k {
    } else {
      RunGrows(c, n, ss, es, i, k - 1);
      RunKeepsInv(c, n, ss, es, k - 1);
      StepGrows(c, ss[k - 1], es[k - 1]);
    }
  }

  lemma StepGrows(c: Config, s: State, e: Event)
    requires Inv(c, s) && Enabled(c, s, e)
    ensures Grows(s.local.staged, s.log.puts, Step(c, s, e).local.staged, Step(c, s, e).log.puts)
  {
    if e.OfHandle? {
      HandleStepGrows(c, s, e.h, e.act);
    }
  }

  lemma HandleStepGrows(c: Config, s: State, h: nat, a: HandleAct)
    requires Inv(c, s) && HandleEnabled(c, s.local, h, a)
    ensures var s' := HandleStep(c, s, h, a); Grows(s.local.staged, s.log.puts, s'.local.staged, s'.log.puts)
  {
    hide FilesInv, JobsInv, WorkersInv, StopInv, HistoryInv, Replay, Apart;
    var l, puts := s.local, s.log.puts;
    if a.Rename? && a.ok {
      RenameKeepsFiles(l, puts, h);
    } else if a.NewTemp? || a.Submit? || a.DirectPut? || a.DirectRemove? {
      assert HandleInv(l, puts, l.handles[h]);
      AnswerGrows(c, s, h, a);
    }
  }

  // Giving an answer is the only way a staging file's status changes.
  lemma AnswerGrows(c: Config, s: State, h: nat, a: HandleAct)
    requires HandleEnabled(c, s.local, h, a) && h in s.local.handles
    requires HandleInv(s.local, s.log.puts, s.local.handles[h])
    requires a.NewTemp? || a.Submit? || a.DirectPut? || a.DirectRemove?
    ensures var s' := HandleStep(c, s, h, a); Grows(s.local.staged, s.log.puts, s'.local.staged, s'.log.puts)
  {
    hide Replay;
  }

  // ---------------------------------------------------------------- conservation

  // Every dirty Flush that returned 0: S3 accepted its own file under its key, with exactly its
  // bytes, or they sit unmodified at their staging path, whatever handles, workers, failures and
  // Stop did. Another Flush's PUT of equal bytes does not do.
  lemma Conservation(c: Config, n: nat, ss: seq<State>, es: seq<Event>, k: nat, f: Flush)
    requires Run(c, n, ss, es) && k < |ss| && f in ss[k].log.flushes
    ensures Put(f.target, f.path, Replay(f.writes), f.writes) in ss[k].log.puts
         || (f.path.Staging? && f.path in ss[k].local.files && ss[k].local.files[f.path] == Replay(f.writes))
  {
    RunKeepsInv(c, n, ss, es, k);
    var l, puts := ss[k].local, ss[k].log.puts;
    assert FlushInv(l.staged, puts, f);
    if f.path.Staging? {
      assert StagedInv(l, puts, f.path.id);
      if f.path in l.files {
        assert FileInv(l, f.path);
      }
    }
  }

  // The writes a staged Flush answers for are those its handle had made when it was staged.
  lemma StagedWritesFixed(c: Config, n: nat, ss: seq<State>, es: seq<Event>, i: nat, k: nat)
    requires Run(c, n, ss, es) && i < k < |ss| && es[i].OfHandle? && es[i].act.Rename? && es[i].act.ok
    ensures var x := ss[i].local.handles[es[i].h];
            && x.tmp.id in ss[k].local.staged
            && ss[k].local.staged[x.tmp.id].target == x.target
            && ss[k].local.staged[x.tmp.id].writes == x.writes
            && ss[i].local.files[Tmp(x.tmp.id)] == Replay(x.writes)
  {
    RunGrows(c, n, ss, es, i + 1, k);
    RunKeepsInv(c, n, ss, es, i);
    assert HandleInv(ss[i].local, ss[i].log.puts, ss[i].local.handles[es[i].h]);
  }

  // A staging file goes away only by a recorded removal, and while it is there it never changes.
  predicate KeptOrRecorded(s: State, s': State, i: nat) {
    Staging(i) in s.local.files ==>
      if Staging(i) in s'.local.files then s'.local.files[Staging(i)] == s.local.files[Staging(i)]
      else Removal(i, |s.log.puts|) in s'.log.removals
  }

  lemma StagingFilesOnlyRemoved(c: Config, s: State, e: Event, i: nat)
    requires Inv(c, s) && Enabled(c, s, e)
    ensures KeptOrRecorded(s, Step(c, s, e), i)
  {
    if e.OfHandle? {
      HandleRemovals(c, s, e.h, e.act, i);
    }
  }

  lemma HandleRemovals(c: Config, s: State, h: nat, a: HandleAct, i: nat)
    requires Inv(c, s) && HandleEnabled(c, s.local, h, a)
    ensures KeptOrRecorded(s, HandleStep(c, s, h, a), i)
  {
    hide HandlesInv, JobsInv, WorkersInv, StopInv, HistoryInv, Replay;
    if a.Rename? {
      assert FileInv(s.local, Tmp(s.local.handles[h].tmp.id));
      RenameRemovals(s, h, a.ok, a.reopened, i);
    } else {
      OtherRemovals(c, s, h, a, i);
    }
  }

  lemma RenameRemovals(s: State, h: nat, ok: bool, reopened: bool, i: nat)
    requires FilesInv(s.local, s.log.puts) && Flushable(s.local, h)
    ensures KeptOrRecorded(s, s.(local := if ok then DoRename(s.local, h) else DoRenameFailed(s.local, h, reopened)), i)
  {
    hide Replay;
    assert FileInv(s.local, Tmp(s.local.handles[h].tmp.id));
    if Staging(i) in s.local.files {
      assert FileInv(s.local, Staging(i));
    }
  }

  lemma OtherRemovals(c: Config, s: State, h: nat, a: HandleAct, i: nat)
    requires HandleEnabled(c, s.local, h, a) && !a.Rename?
    ensures KeptOrRecorded(s, HandleStep(c, s, h, a), i)
  {
  }

  // Every removal of a staging file follows the PUT that delivered it, unless its Flush returned EIO.
  lemma RemovalsJustified(c: Config, n: nat, ss: seq<State>, es: seq<Event>, k: nat, r: Removal)
    requires Run(c, n, ss, es) && k < |ss| && r in ss[k].log.removals
    ensures r.id in ss[k].local.staged && r.after <= |ss[k].log.puts|
    ensures var x := ss[k].local.staged[r.id];
            || PutOf(ss[k].local.staged, r.id) in ss[k].log.puts[..r.after]
            || (x.status == Rejected && forall f <- ss[k].log.flushes :: f.path != Staging(r.id))
  {
    RunKeepsInv(c, n, ss, es, k);
    assert RemovalInv(ss[k].local.staged, ss[k].log.puts, r);
    forall f <- ss[k].log.flushes | f.path == Staging(r.id)
      ensures ss[k].local.staged[r.id].status == Promised
    {
      assert FlushInv(ss[k].local.staged, ss[k].log.puts, f);
    }
  }

  // ---------------------------------------------------------------- buffer fidelity

  // A dirty read sees the overlay of the handle's writes since open or since the last staged
  // flush, and no PUT ever carried anything but such an overlay.
  lemma BufferFidelity(c: Config, n: nat, ss: seq<State>, es: seq<Event>, k: nat)
    requires Run(c, n, ss, es) && k < |ss|
    ensures forall h <- ss[k].local.handles :: ss[k].local.handles[h].tmp.Opened? ==>
              var x := ss[k].local.handles[h];
              && Tmp(x.tmp.id) in ss[k].local.files
              && |ss[k].local.files[Tmp(x.tmp.id)]| == Extent(x.writes)
              && forall i :: 0 <= i < Extent(x.writes) ==> ss[k].local.files[Tmp(x.tmp.id)][i] == ByteAt(x.writes, i)
    ensures forall p <- ss[k].log.puts ::
              |p.body| == Extent(p.writes) && forall i :: 0 <= i < Extent(p.writes) ==> p.body[i] == ByteAt(p.writes, i)
  {
    RunKeepsInv(c, n, ss, es, k);
    var l := ss[k].local;
    forall h <- l.handles | l.handles[h].tmp.Opened?
      ensures Tmp(l.handles[h].tmp.id) in l.files && l.files[Tmp(l.handles[h].tmp.id)] == Replay(l.handles[h].writes)
    {
      assert HandleInv(l, ss[k].log.puts, l.handles[h]);
    }
    forall ws: seq<Write>
      ensures |Replay(ws)| == Extent(ws) && forall i :: 0 <= i < Extent(ws) ==> Replay(ws)[i] == ByteAt(ws, i)
    {
      ReplayIsOverlay(ws);
    }
    forall p <- ss[k].log.puts ensures p.body == Replay(p.writes) {
      assert PutInv(l.staged, p);
    }
  }

  // A failed syncUpload leaves the handle dirty with the same bytes, and the next Flush offers
  // exactly them again: as a PUT of the temp file, or staged.
  lemma FailedSyncOffersAgain(c: Config, s: State, h: nat)
    requires Inv(c, s) && HandleEnabled(c, s.local, h, SyncPut(false)) && s.local.handles[h].dirty
    ensures var s', x := HandleStep(c, s, h, SyncPut(false)), s.local.handles[h];
            && s'.local.files == s.local.files && s'.log == s.log
            && s'.local.handles[h].writes == x.writes && Flushable(s'.local, h)
            && HandleEnabled(c, s'.local, h, if c.writeBack then Rename(true, false) else StartSync)
            && if c.writeBack then OffersStaged(HandleStep(c, s', h, Rename(true, false)).local, x)
               else OffersPut(c, HandleStep(c, s', h, StartSync), h, x)
  {
    assert HandleInv(s.local, s.log.puts, s.local.handles[h]);
  }

  // The staging file made of the handle's temp file holds all it has written.
  predicate OffersStaged(l: Local, x: Handle)
    requires x.tmp.Opened?
  {
    var p := Staging(x.tmp.id);
    p in l.files && l.files[p] == Replay(x.writes) && x.tmp.id in l.staged && l.staged[x.tmp.id].writes == x.writes
  }

  // If S3 takes the PUT that is next, it takes all the handle has written.
  predicate OffersPut(c: Config, s: State, h: nat, x: Handle)
    requires x.tmp.Opened?
  {
    && HandleEnabled(c, s.local, h, SyncPut(true))
    && HandleStep(c, s, h, SyncPut(true)).log.puts ==
       s.log.puts + [Put(x.target, Tmp(x.tmp.id), Replay(x.writes), x.writes)]
  }

  // ---------------------------------------------------------------- queue accounting

  function BusyTickets(workers: seq<Worker>): set<nat> {
    set b | b in workers && b.Busy? :: b.ticket
  }

  // Submitted jobs are exactly the queued, the held and the resolved ones, with no overlap;
  // no worker holds a job another holds; the queue respects its capacity; no job is tried
  // more than maxRetries + 1 times, and one reported delivered was accepted by S3.
  lemma QueueAccounting(c: Config, n: nat, ss: seq<State>, es: seq<Event>, k: nat)
    requires Run(c, n, ss, es) && k < |ss|
    ensures var q := ss[k].pool;
      && q.taken <= |q.submitted|
      && q.submitted == q.submitted[..q.taken] + q.queue && |q.queue| <= c.capacity
      && Tickets(q.taken) == BusyTickets(q.workers) + q.outcomes.Keys
      && BusyTickets(q.workers) !! q.outcomes.Keys
      && (forall w, v :: 0 <= w < v < |q.workers| && q.workers[w].Busy? ==> !Holds(q.workers[v], q.workers[w].ticket))
      && (forall u <- q.uploads :: u <= c.maxRetries + 1)
      && (forall t <- q.outcomes :: q.outcomes[t] == Delivered ==>
            Accepted(ss[k].local.staged, ss[k].log.puts, q.submitted[t].id))
    ensures |ss[k].pool.submitted| == |ss[k].pool.queue| + |BusyTickets(ss[k].pool.workers)| + |ss[k].pool.outcomes|
  {
    RunKeepsInv(c, n, ss, es, k);
    var q := ss[k].pool;
    assert WorkersInv(c, ss[k].local.staged, ss[k].log.puts, q);
    var received := Tickets(q.taken);
    var busy := BusyTickets(q.workers);
    forall t | t in received && t !in q.outcomes ensures t in busy {
      assert Held(q.workers, t);
    }
    forall t | t in busy ensures t in received && t !in q.outcomes {
      var b :| b in q.workers && b.Busy? && b.ticket == t;
      assert WorkerInv(c, ss[k].local.staged, ss[k].log.puts, q, b);
    }
    assert received == busy + q.outcomes.Keys;
    assert |received| == |busy| + |q.outcomes.Keys|;
  }

  function Tickets(n: nat): (ts: set<nat>)
    ensures (forall t: nat :: t in ts <==> t < n) && |ts| == n
  {
    if n == 0 then {} else {n - 1} + Tickets(n - 1)
  }

  // A job's outcome, once there, is final; a received job is never queued again.
  predicate OutcomesKept(q: Pool, q': Pool) {
    && q.taken <= q'.taken && q.submitted <= q'.submitted
    && (forall t <- q.outcomes :: t in q'.outcomes && q'.outcomes[t] == q.outcomes[t])
  }

  lemma OutcomesFinal(c: Config, s: State, e: Event)
    requires Inv(c, s) && Enabled(c, s, e)
    ensures OutcomesKept(s.pool, Step(c, s, e).pool)
  {
    match e {
      case OfHandle(h, a) => HandleFlags(c, s, h, a);
      case OfWorker(w, a) => WorkerOutcomes(c, s.local, s.log.puts, s.pool, w, a);
      case Stop =>
    }
  }

  lemma WorkerOutcomes(c: Config, l: Local, puts: seq<Put>, q: Pool, w: nat, a: WorkerAct)
    requires WorkersInv(c, l.staged, puts, q) && WorkerEnabled(c, l, q, w, a)
    ensures OutcomesKept(q, PoolStep(c, l, q, w, a))
    ensures PoolStep(c, l, q, w, a).stopping == q.stopping && PoolStep(c, l, q, w, a).lateSubmit == q.lateSubmit
    ensures |PoolStep(c, l, q, w, a).workers| == |q.workers|
  {
    assert q.workers[w] in q.workers && WorkerInv(c, l.staged, puts, q, q.workers[w]);
  }

  // A handle reaches the queue side only by queueing a job.
  lemma HandleFlags(c: Config, s: State, h: nat, a: HandleAct)
    requires HandleEnabled(c, s.local, h, a)
    ensures var q' := HandleStep(c, s, h, a).pool;
      if a.Submit? && |s.pool.queue| < c.capacity then
        q' == DoEnqueue(s.pool, Job(s.local.handles[h].target, s.local.handles[h].staging))
      else q' == s.pool
  {
  }

  // ---------------------------------------------------------------- Stop

  predicate AllExited(q: Pool) {
    forall b <- q.workers :: b.Exited?
  }

  // Stop returns when every worker has exited. If nothing was queued after stopCh was
  // closed, nothing is left behind: the queue is empty and every job has its outcome.
  lemma StopLeavesNothing(c: Config, n: nat, ss: seq<State>, es: seq<Event>, k: nat)
    requires Run(c, n, ss, es) && k < |ss| && n > 0
    requires AllExited(ss[k].pool) && !ss[k].pool.lateSubmit
    ensures ss[k].pool.queue == []
    ensures forall t :: 0 <= t < |ss[k].pool.submitted| ==> t in ss[k].pool.outcomes
  {
    StrandedExactly(c, n, ss, es, k);
    forall j | 0 <= j < k && Queues(c, ss, es, j) ensures !AllExited(ss[j].pool) {
      if AllExited(ss[j].pool) {
        AllExitedMeansStopping(c, n, ss, es, j);
        LateSubmitMeaning(c, n, ss, es, j);
        LateSubmitMeaning(c, n, ss, es, k);
        assert QueuedLate(c, ss, es, k);
      }
    }
    EveryOutcome(c, n, ss, es, k);
  }

  // When Stop returns, a job is left in the queue exactly if one was queued after the last worker
  // had gone. A job queued while there is still a worker is taken, however late.
  lemma StrandedExactly(c: Config, n: nat, ss: seq<State>, es: seq<Event>, k: nat)
    requires Run(c, n, ss, es) && k < |ss| && n > 0 && AllExited(ss[k].pool)
    ensures ss[k].pool.queue != [] <==> QueuedTooLate(c, ss, es, k)
  {
    StrandedSoFar(c, n, ss, es, k);
  }

  predicate QueuedTooLate(c: Config, ss: seq<State>, es: seq<Event>, k: nat)
    requires |ss| == |es| + 1 && k <= |es|
  {
    exists j :: 0 <= j < k && Queues(c, ss, es, j) && AllExited(ss[j].pool)
  }

  lemma {:induction false} StrandedSoFar(c: Config, n: nat, ss: seq<State>, es: seq<Event>, k: nat)
    requires Run(c, n, ss, es) && k < |ss| && n > 0
    ensures if AllExited(ss[k].pool) then ss[k].pool.queue != [] <==> QueuedTooLate(c, ss, es, k)
            else !QueuedTooLate(c, ss, es, k)
  {
    hide HandleEnabled, WorkerEnabled, HandleStep, WorkerStep;
    WorkerCount(c, n, ss, es, k);
    if k == 0 {
      assert ss[0].pool.workers[0] in ss[0].pool.workers;
    } else {
      StrandedSoFar(c, n, ss, es, k - 1);
      ExitStep(c, ss[k - 1], es[k - 1]);
      var late := Queues(c, ss, es, k - 1) && AllExited(ss[k - 1].pool);
      assert QueuedTooLate(c, ss, es, k) <==> QueuedTooLate(c, ss, es, k - 1) || late;
    }
  }

  // The last worker leaves an empty queue behind, and after that only Submit changes it.
  lemma ExitStep(c: Config, s: State, e: Event)
    requires Enabled(c, s, e)
    ensures var q, q' := s.pool, Step(c, s, e).pool;
      var queued := e.OfHandle? && e.act.Submit? && |q.queue| < c.capacity;
      && (AllExited(q) ==> AllExited(q') && (q'.queue != [] <==> q.queue != [] || queued))
      && (!AllExited(q) && AllExited(q') ==> q'.queue == [])
  {
    match e {
      case OfHandle(h, a) => HandleFlags(c, s, h, a);
      case OfWorker(w, a) => ExitAct(c, s, w, a);
      case Stop =>
    }
  }

  lemma ExitAct(c: Config, s: State, w: nat, a: WorkerAct)
    requires WorkerEnabled(c, s.local, s.pool, w, a)
    ensures !AllExited(s.pool)
    ensures AllExited(PoolStep(c, s.local, s.pool, w, a)) ==> PoolStep(c, s.local, s.pool, w, a).queue == []
  {
    var q' := PoolStep(c, s.local, s.pool, w, a);
    assert s.pool.workers[w] in s.pool.workers && q'.workers[w] in q'.workers;
  }

  lemma AllExitedMeansStopping(c: Config, n: nat, ss: seq<State>, es: seq<Event>, k: nat)
    requires Run(c, n, ss, es) && k < |ss| && n > 0 && AllExited(ss[k].pool)
    ensures ss[k].pool.stopping
  {
    RunKeepsInv(c, n, ss, es, k);
    WorkerCount(c, n, ss, es, k);
    assert ss[k].pool.workers[0] in ss[k].pool.workers;
  }

  // With the queue empty and no worker left, every job has its outcome.
  lemma EveryOutcome(c: Config, n: nat, ss: seq<State>, es: seq<Event>, k: nat)
    requires Run(c, n, ss, es) && k < |ss| && AllExited(ss[k].pool) && ss[k].pool.queue == []
    ensures forall t :: 0 <= t < |ss[k].pool.submitted| ==> t in ss[k].pool.outcomes
  {
    RunKeepsInv(c, n, ss, es, k);
    var q := ss[k].pool;
    assert WorkersInv(c, ss[k].local.staged, ss[k].log.puts, q);
    assert forall t :: !Held(q.workers, t);
  }

  lemma {:induction false} WorkerCount(c: Config, n: nat, ss: seq<State>, es: seq<Event>, k: nat)
    requires Run(c, n, ss, es) && k < |ss|
    ensures |ss[k].pool.workers| == n
  {
    hide HandleEnabled, WorkerEnabled, HandleStep, WorkerStep;
    if k == 0 {
    } else {
      WorkerCount(c, n, ss, es, k - 1);
      WorkersStay(c, ss[k - 1], es[k - 1]);
    }
  }

  lemma WorkersStay(c: Config, s: State, e: Event)
    requires Enabled(c, s, e)
    ensures |Step(c, s, e).pool.workers| == |s.pool.workers|
  {
    if e.OfHandle? {
      HandleFlags(c, s, e.h, e.act);
    }
  }

  // Event j put a job on the queue.
  predicate Queues(c: Config, ss: seq<State>, es: seq<Event>, j: nat)
    requires |ss| == |es| + 1 && j < |es|
  {
    es[j].OfHandle? && es[j].act.Submit? && |ss[j].pool.queue| < c.capacity
  }

  // What lateSubmit records: a job was queued after stopCh was closed.
  predicate StoppedBefore(es: seq<Event>, k: nat)
    requires k <= |es|
  {
    exists i :: 0 <= i < k && es[i].Stop?
  }

  predicate QueuedLate(c: Config, ss: seq<State>, es: seq<Event>, k: nat)
    requires |ss| == |es| + 1 && k <= |es|
  {
    exists j :: 0 <= j < k && Queues(c, ss, es, j) && StoppedBefore(es, j)
  }

  lemma {:induction false} LateSubmitMeaning(c: Config, n: nat, ss: seq<State>, es: seq<Event>, k: nat)
    requires Run(c, n, ss, es) && k < |ss|
    ensures ss[k].pool.stopping <==> StoppedBefore(es, k)
    ensures ss[k].pool.lateSubmit <==> QueuedLate(c, ss, es, k)
  {
    if k == 0 {
    } else {
      LateSubmitMeaning(c, n, ss, es, k - 1);
      RunKeepsInv(c, n, ss, es, k - 1);
      var s, e := ss[k - 1], es[k - 1];
      FlagsStep(c, s, e);
      assert StoppedBefore(es, k) <==> StoppedBefore(es, k - 1) || e.Stop?;
      assert QueuedLate(c, ss, es, k) <==>
        QueuedLate(c, ss, es, k - 1) || (Queues(c, ss, es, k - 1) && StoppedBefore(es, k - 1));
    }
  }

  lemma FlagsStep(c: Config, s: State, e: Event)
    requires Inv(c, s) && Enabled(c, s, e)
    ensures Step(c, s, e).pool.stopping == (s.pool.stopping || e.Stop?)
    ensures Step(c, s, e).pool.lateSubmit ==
      (s.pool.lateSubmit || (e.OfHandle? && e.act.Submit? && |s.pool.queue| < c.capacity && s.pool.stopping))
  {
    match e {
      case OfHandle(h, a) => HandleFlags(c, s, h, a);
      case OfWorker(w, a) => WorkerOutcomes(c, s.local, s.log.puts, s.pool, w, a);
      case Stop =>
    }
  }

  // The guard matters: a handle that is still flushing when stopCh closes can leave a job that
  // nobody will ever take, although its Flush returned 0. (The bytes still sit at their staging path.)
  lemma LateSubmitCanStrand(c: Config, target: ObjKey) returns (ss: seq<State>, es: seq<Event>)
    requires c.writeBack && c.capacity > 0
    ensures Run(c, 1, ss, es)
    ensures var end := ss[|es|];
      AllExited(end.pool) && |end.pool.queue| == 1 && |end.log.flushes| == 1 && end.log.puts == []
  {
    var s;
    ss, s := StageOnce(c, target);
    es := StageEvents(target);
    ss, es := Extended(c, ss, es, Stop);
    ss, es := Extended(c, ss, es, OfWorker(0, SeeStop));
    ss, es := Extended(c, ss, es, OfWorker(0, FindEmpty));
    ss, es := Extended(c, ss, es, OfHandle(0, Submit));
  }

  lemma Extended(c: Config, ss: seq<State>, es: seq<Event>, e: Event) returns (ss': seq<State>, es': seq<Event>)
    requires RunsFrom(c, ss, es) && Enabled(c, ss[|es|], e)
    ensures RunsFrom(c, ss', es') && es' == es + [e] && ss'[0] == ss[0] && ss'[|es'|] == Step(c, ss[|es|], e)
  {
    hide HandleEnabled, WorkerEnabled, HandleStep, WorkerStep;
    ss', es' := ss + [Step(c, ss[|es|], e)], es + [e];
    forall i | 0 <= i < |es'| ensures Enabled(c, ss'[i], es'[i]) && ss'[i + 1] == Step(c, ss'[i], es'[i]) {
      if i < |es| {
        assert ss'[i] == ss[i] && ss'[i + 1] == ss[i + 1] && es'[i] == es[i];
      }
    }
  }

  function StageEvents(target: ObjKey): seq<Event> {
    [OfHandle(0, Open(target, true)), OfHandle(0, Rename(true, false)),
     OfHandle(0, NewTemp(true, false)), OfHandle(0, Publish)]
  }

  // One new, empty file, staged and about to be offered to the queue.
  function StagedLocal(target: ObjKey): Local {
    Local(map[Staging(0) := [], Tmp(1) := []],
          map[0 := Handle(target, Opened(1), false, Submitting, 0, [])], 2,
          map[0 := StagedFile(target, [], InFlight)])
  }

  lemma StageOnce(c: Config, target: ObjKey) returns (ss: seq<State>, s': State)
    requires c.writeBack
    ensures RunsFrom(c, ss, StageEvents(target)) && ss[0] == Init(1)
    ensures ss[4] == s' == Init(1).(local := StagedLocal(target))
  {
    var s, x := Init(1), Handle(target, Opened(0), true, Ready, 0, []);
    var l0 := s.local;
    var l1 := Local(map[Tmp(0) := []], map[0 := x], 1, map[]);
    var x2 := Handle(target, Shut(0), true, Renamed, 0, []);
    var l2 := Local(map[Staging(0) := []], map[0 := x2], 1, map[0 := StagedFile(target, [], InFlight)]);
    var l3 := DoNewTemp(l2, 0);
    assert DoOpen(l0, 0, target, true) == l1;
    assert DoRename(l1, 0) == l2;
    assert DoPublish(l3, 0) == StagedLocal(target);
    ss := [s, s.(local := l1), s.(local := l2), s.(local := l3), s.(local := StagedLocal(target))];
    s' := ss[4];
  }

  // How many more steps the workers can take.
  function Rank(c: Config, b: Worker): nat {
    match b
    case Exited => 0
    case Draining => 1
    case Selecting => 2
    case Busy(_, _, attempt, _, stage) =>
      var left := if attempt <= c.maxRetries then c.maxRetries - attempt else 0;
      if stage == Uploaded then 3 else if stage == Uploading then 2 * left + 4 else 2 * left + 5
  }

  function Ranks(c: Config, workers: seq<Worker>): nat {
    if workers == [] then 0 else Rank(c, workers[0]) + Ranks(c, workers[1..])
  }

  function Work(c: Config, q: Pool): nat {
    |q.queue| * (2 * c.maxRetries + 4) + Ranks(c, q.workers)
  }

  lemma {:induction false} RanksUpdate(c: Config, workers: seq<Worker>, w: nat, x: Worker)
    requires w < |workers|
    ensures Ranks(c, workers[w := x]) == Ranks(c, workers) - Rank(c, workers[w]) + Rank(c, x)
  {
    if w > 0 {
      RanksUpdate(c, workers[1..], w - 1, x);
      assert workers[w := x][1..] == workers[1..][w - 1 := x];
    } else {
      assert workers[w := x][1..] == workers[1..];
    }
  }

  lemma WorkDecreases(c: Config, l: Local, puts: seq<Put>, q: Pool, w: nat, a: WorkerAct)
    requires WorkersInv(c, l.staged, puts, q) && WorkerEnabled(c, l, q, w, a)
    ensures Work(c, PoolStep(c, l, q, w, a)) < Work(c, q)
  {
    assert q.workers[w] in q.workers && WorkerInv(c, l.staged, puts, q, q.workers[w]);
    var x := PoolStep(c, l, q, w, a).workers[w];
    RanksUpdate(c, q.workers, w, x);
    RankDrops(c, l, puts, q, w, a);
    if a.Take? {
      var m := 2 * c.maxRetries + 4;
      assert |q.queue| * m == (|q.queue[1..]| + 1) * m == |q.queue[1..]| * m + m;
    }
  }

  // A received job adds less to its worker's rank than it takes off the queue; every other action
  // lowers the rank of the one worker that acts.
  lemma RankDrops(c: Config, l: Local, puts: seq<Put>, q: Pool, w: nat, a: WorkerAct)
    requires WorkerEnabled(c, l, q, w, a) && WorkerInv(c, l.staged, puts, q, q.workers[w])
    ensures var q' := PoolStep(c, l, q, w, a);
      && |q'.workers| == |q.workers| && q'.workers == q.workers[w := q'.workers[w]]
      && q'.queue == (if a.Take? then q.queue[1..] else q.queue)
      && Rank(c, q'.workers[w]) < Rank(c, q.workers[w]) + (if a.Take? then 2 * c.maxRetries + 4 else 0)
  {
  }

  // No worker has anything it could do.
  predicate Stuck(c: Config, s: State, w: nat) {
    && (forall ok: bool ::
          !WorkerEnabled(c, s.local, s.pool, w, Upload(ok)) && !WorkerEnabled(c, s.local, s.pool, w, RemoveStaged(ok)))
    && (forall a <- [Take, SeeStop, FindEmpty, FindNoClient, Retry, Abort] :: !WorkerEnabled(c, s.local, s.pool, w, a))
  }

  // Once stopCh is closed a worker cannot block before it has exited.
  lemma NoDeadlock(c: Config, s: State, w: nat)
    requires Inv(c, s) && s.pool.stopping && w < |s.pool.workers| && Stuck(c, s, w)
    ensures s.pool.workers[w].Exited?
  {
    var b := s.pool.workers[w];
    assert b in s.pool.workers && WorkerInv(c, s.local.staged, s.log.puts, s.pool, b);
    var acts := [Take, SeeStop, FindEmpty, FindNoClient, Retry, Abort];
    assert forall i :: 0 <= i < |acts| ==> acts[i] in acts;
    assert !WorkerEnabled(c, s.local, s.pool, w, acts[0]) && !WorkerEnabled(c, s.local, s.pool, w, acts[1]);
    assert !WorkerEnabled(c, s.local, s.pool, w, acts[2]) && !WorkerEnabled(c, s.local, s.pool, w, acts[3]);
    assert !WorkerEnabled(c, s.local, s.pool, w, acts[4]);
    assert !WorkerEnabled(c, s.local, s.pool, w, Upload(false));
    assert !WorkerEnabled(c, s.local, s.pool, w, RemoveStaged(false));
  }

  // Stop ends: with the handles quiet, the workers take at most Work steps.
  lemma {:induction false} StopReturns(c: Config, ss: seq<State>, es: seq<Event>, k: nat)
    requires |ss| == |es| + 1 && k < |ss| && Inv(c, ss[0])
    requires forall i ::
      0 <= i < |es| ==> es[i].OfWorker? && Enabled(c, ss[i], es[i]) && ss[i + 1] == Step(c, ss[i], es[i])
    ensures k + Work(c, ss[k].pool) <= Work(c, ss[0].pool)
    ensures Inv(c, ss[k]) && ss[k].pool.stopping == ss[0].pool.stopping
  {
    if k == 0 {
    } else {
      StopReturns(c, ss, es, k - 1);
      StepKeepsInv(c, ss[k - 1], es[k - 1]);
      FlagsStep(c, ss[k - 1], es[k - 1]);
      WorkStep(c, ss[k - 1], es[k - 1].w, es[k - 1].job);
    }
  }

  lemma WorkStep(c: Config, s: State, w: nat, a: WorkerAct)
    requires Inv(c, s) && WorkerEnabled(c, s.local, s.pool, w, a)
    ensures Work(c, WorkerStep(c, s, w, a).pool) < Work(c, s.pool)
  {
    WorkDecreases(c, s.local, s.log.puts, s.pool, w, a);
  }

  // Together: where after Stop only workers act, they take at most a fixed number of steps, and the
  // run cannot go on exactly when all have gone. Then the queue is empty and every job has its
  // outcome, unless the last worker had already gone when a job was queued.
  lemma StopCompletes(c: Config, n: nat, ss: seq<State>, es: seq<Event>, i: nat, m: nat)
    requires Run(c, n, ss, es) && i <= m < |ss| && n > 0 && StoppedBefore(es, i)
    requires forall j :: i <= j < m ==> es[j].OfWorker?
    ensures m - i <= Work(c, ss[i].pool)
    ensures (forall w :: 0 <= w < n ==> Stuck(c, ss[m], w)) <==> AllExited(ss[m].pool)
    ensures AllExited(ss[m].pool) ==> (ss[m].pool.queue == [] <==> !QueuedTooLate(c, ss, es, i))
    ensures AllExited(ss[m].pool) && !QueuedTooLate(c, ss, es, i) ==>
      forall t :: 0 <= t < |ss[m].pool.submitted| ==> t in ss[m].pool.outcomes
  {
    hide Inv, HandleEnabled, WorkerEnabled, HandleStep, WorkerStep, Stuck, Work;
    RunKeepsInv(c, n, ss, es, i);
    RunKeepsInv(c, n, ss, es, m);
    LateSubmitMeaning(c, n, ss, es, m);
    WorkerCount(c, n, ss, es, m);
    StopReturns(c, ss[i..m + 1], es[i..m], m - i);
    var q := ss[m].pool;
    forall w | 0 <= w < n ensures Stuck(c, ss[m], w) <==> q.workers[w].Exited? {
      StuckExited(c, ss[m], w);
    }
    assert AllExited(q) <==> forall w :: 0 <= w < n ==> q.workers[w].Exited?;
    assert QueuedTooLate(c, ss, es, m) <==> QueuedTooLate(c, ss, es, i);
    if AllExited(q) {
      StrandedExactly(c, n, ss, es, m);
      if q.queue == [] {
        EveryOutcome(c, n, ss, es, m);
      }
    }
  }

  lemma StuckExited(c: Config, s: State, w: nat)
    requires Inv(c, s) && s.pool.stopping && w < |s.pool.workers|
    ensures Stuck(c, s, w) <==> s.pool.workers[w].Exited?
  {
    if Stuck(c, s, w) {
      NoDeadlock(c, s, w);
    }
  }

  // ---------------------------------------------------------------- order with one worker

  predicate Increasing(s: seq<nat>) {
    forall i, j :: 0 <= i < j < |s| ==> s[i] < s[j]
  }

  predicate OrderInv(q: Pool) {
    && |q.workers| == 1
    && Increasing(q.delivered)
    && (forall t <- q.delivered :: t < q.taken)
    && (q.workers[0].Busy? ==>
          && q.workers[0].ticket + 1 == q.taken
          && (q.workers[0].stage != Uploaded ==> forall t <- q.delivered :: t < q.workers[0].ticket))
  }

  lemma OrderStep(c: Config, l: Local, q: Pool, a: WorkerAct)
    requires OrderInv(q) && WorkerEnabled(c, l, q, 0, a)
    ensures OrderInv(PoolStep(c, l, q, 0, a))
  {
    if a == Upload(true) {
      assert forall i :: 0 <= i < |q.delivered| ==> q.delivered[i] in q.delivered;
    } else {
      assert PoolStep(c, l, q, 0, a).delivered == q.delivered;
    }
  }

  // With a single worker queued uploads are delivered in the order they were submitted.
  lemma {:induction false} OneWorkerKeepsOrder(c: Config, ss: seq<State>, es: seq<Event>, k: nat)
    requires Run(c, 1, ss, es) && k < |ss|
    ensures OrderInv(ss[k].pool)
  {
    if k == 0 {
    } else {
      OneWorkerKeepsOrder(c, ss, es, k - 1);
      if es[k - 1].OfWorker? {
        OrderStep(c, ss[k - 1].local, ss[k - 1].pool, es[k - 1].job);
      } else if es[k - 1].OfHandle? {
        HandleFlags(c, ss[k - 1], es[k - 1].h, es[k - 1].act);
      }
    }
  }

  // A worker's PUT that S3 accepts.
  predicate WorkerPut(e: Event) {
    e.OfWorker? && e.job == Upload(true)
  }

  // The m-th job delivered is the PUT at position at[m] of S3's log.
  predicate DeliveredAt(st: map<nat, StagedFile>, puts: seq<Put>, q: Pool, at: seq<nat>) {
    && |at| == |q.delivered| && Increasing(at)
    && forall m :: 0 <= m < |at| ==> DeliveredBy(st, puts, q, q.delivered[m], at[m])
  }

  predicate DeliveredBy(st: map<nat, StagedFile>, puts: seq<Put>, q: Pool, t: nat, p: nat) {
    t < |q.submitted| && p < |puts| && q.submitted[t].id in st && puts[p] == PutOf(st, q.submitted[t].id)
  }

  lemma DeliveryStays(st: map<nat, StagedFile>, puts: seq<Put>, q: Pool, st': map<nat, StagedFile>, puts': seq<Put>,
                      q': Pool,
                      t: nat, p: nat)
    requires Grows(st, puts, st', puts') && q.submitted <= q'.submitted && DeliveredBy(st, puts, q, t, p)
    ensures DeliveredBy(st', puts', q', t, p)
  {
  }

  // Only a worker's PUT delivers.
  lemma DeliveredSame(c: Config, s: State, e: Event)
    requires Enabled(c, s, e) && !WorkerPut(e)
    ensures Step(c, s, e).pool.delivered == s.pool.delivered
  {
    if e.OfHandle? {
      HandleFlags(c, s, e.h, e.act);
    }
  }

  lemma DeliverStep(c: Config, s: State, e: Event, at: seq<nat>)
    requires Inv(c, s) && Enabled(c, s, e) && DeliveredAt(s.local.staged, s.log.puts, s.pool, at)
    ensures var s' := Step(c, s, e);
      DeliveredAt(s'.local.staged, s'.log.puts, s'.pool, if WorkerPut(e) then at + [|s.log.puts|] else at)
  {
    hide HandleEnabled, WorkerEnabled, HandleStep, WorkerStep, Inv, Grows, DeliveredBy;
    StepGrows(c, s, e);
    OutcomesFinal(c, s, e);
    var s' := Step(c, s, e);
    forall m | 0 <= m < |at|
      ensures DeliveredBy(s'.local.staged, s'.log.puts, s'.pool, s.pool.delivered[m], at[m]) && at[m] < |s.log.puts|
    {
      assert DeliveredBy(s.local.staged, s.log.puts, s.pool, s.pool.delivered[m], at[m]);
      DeliveryStays(s.local.staged, s.log.puts, s.pool, s'.local.staged, s'.log.puts, s'.pool, s.pool.delivered[m],
                    at[m]);
      InLog(s.local.staged, s.log.puts, s.pool, s.pool.delivered[m], at[m]);
    }
    if WorkerPut(e) {
      WorkerPuts(c, s, e.w);
    } else {
      DeliveredSame(c, s, e);
    }
  }

  lemma InLog(st: map<nat, StagedFile>, puts: seq<Put>, q: Pool, t: nat, p: nat)
    requires DeliveredBy(st, puts, q, t, p)
    ensures p < |puts|
  {
  }

  lemma WorkerPuts(c: Config, s: State, w: nat)
    requires Inv(c, s) && WorkerEnabled(c, s.local, s.pool, w, Upload(true))
    ensures var t, s' := s.pool.workers[w].ticket, WorkerStep(c, s, w, Upload(true));
      && s'.pool.delivered == s.pool.delivered + [t]
      && DeliveredBy(s'.local.staged, s'.log.puts, s'.pool, t, |s.log.puts|)
  {
    var b := s.pool.workers[w];
    assert b in s.pool.workers && WorkerInv(c, s.local.staged, s.log.puts, s.pool, b);
    assert JobInv(s.local.staged, b.job);
    PutStagedIsPutOf(s.local, s.log.puts, b.job.id);
  }

  // Where in S3's log the workers' PUTs are: one position per job delivered.
  lemma {:induction false} WorkerPutPositions(c: Config, n: nat, ss: seq<State>, es: seq<Event>, k: nat)
    returns (at: seq<nat>)
    requires Run(c, n, ss, es) && k < |ss|
    ensures DeliveredAt(ss[k].local.staged, ss[k].log.puts, ss[k].pool, at)
    ensures forall p: nat :: p in at <==> exists i :: 0 <= i < k && WorkerPut(es[i]) && |ss[i].log.puts| == p
  {
    hide HandleEnabled, WorkerEnabled, HandleStep, WorkerStep, DeliveredAt, Inv;
    if k == 0 {
      at := [];
      NothingDelivered(n);
    } else {
      var before := WorkerPutPositions(c, n, ss, es, k - 1);
      RunKeepsInv(c, n, ss, es, k - 1);
      DeliverStep(c, ss[k - 1], es[k - 1], before);
      at := if WorkerPut(es[k - 1]) then before + [|ss[k - 1].log.puts|] else before;
    }
  }

  lemma NothingDelivered(n: nat)
    ensures DeliveredAt(Init(n).local.staged, Init(n).log.puts, Init(n).pool, [])
  {
  }

  // With a single worker, the PUTs that S3 accepted from the queue stand in its log in the order
  // in which their jobs were submitted, each the whole staged file of its job.
  lemma OneWorkerPutsInOrder(c: Config, ss: seq<State>, es: seq<Event>, k: nat)
    returns (at: seq<nat>, tickets: seq<nat>)
    requires Run(c, 1, ss, es) && k < |ss|
    ensures forall p: nat :: p in at <==> exists i :: 0 <= i < k && WorkerPut(es[i]) && |ss[i].log.puts| == p
    ensures |at| == |tickets| && Increasing(at) && Increasing(tickets)
    ensures forall m :: 0 <= m < |at| ==>
              DeliveredBy(ss[k].local.staged, ss[k].log.puts, ss[k].pool, tickets[m], at[m])
  {
    hide Run, RunsFrom;
    at := WorkerPutPositions(c, 1, ss, es, k);
    OneWorkerKeepsOrder(c, ss, es, k);
    tickets := ss[k].pool.delivered;
  }
}
