/**
 Staging files while they are needed: from the rename to the answer of its Flush, and from Submit
 until its job is delivered, a staging file is on disk, in every run.
 */
module WriteBackFiles {
  import opened Buffers
  import opened WriteBack
  import opened WriteBackProofs
  import opened WriteBackTheorems

  predicate OnDisk(l: Local, i: nat) {
    Staging(i) in l.files
  }

  // Every handle that has staged a file and not yet answered still has it ...
  predicate HandlesHaveFiles(l: Local) {
    forall h <- l.handles :: InStaging(l.handles[h].phase) ==> OnDisk(l, l.handles[h].staging)
  }

  predicate IsDelivered(q: Pool, t: nat) {
    t in q.outcomes && q.outcomes[t] == Delivered
  }

  // ... and so has every job that has not been delivered: a queued one, one that is being uploaded,
  // and one that was given up.
  predicate JobsHaveFiles(l: Local, q: Pool) {
    forall t :: 0 <= t < |q.submitted| && !IsDelivered(q, t) ==> OnDisk(l, q.submitted[t].id)
  }

  // Who takes a staging file away: the handle that staged it and has now answered, or the worker that
  // has uploaded it and reports the job delivered.
  predicate TakenBy(s: State, e: Event, i: nat) {
    match e
    case OfHandle(h, a) =>
      ((a.NewTemp? && !a.ok) || a.DirectRemove?) && StagedBy(s.local, h) && s.local.handles[h].staging == i
    case OfWorker(w, a) => a.RemoveStaged? && BusyAt(s.pool, w, Uploaded) && s.pool.workers[w].job.id == i
    case Stop => false
  }

  lemma FileTaken(c: Config, s: State, e: Event, i: nat)
    requires Inv(c, s) && Enabled(c, s, e) && OnDisk(s.local, i) && !OnDisk(Step(c, s, e).local, i)
    ensures TakenBy(s, e, i)
  {
    hide Inv;
    if e.OfHandle? {
      HandleTakes(c, s, e.h, e.act, i);
    }
  }

  lemma HandleTakes(c: Config, s: State, h: nat, a: HandleAct, i: nat)
    requires HandleEnabled(c, s.local, h, a) && OnDisk(s.local, i) && !OnDisk(HandleStep(c, s, h, a).local, i)
    ensures TakenBy(s, OfHandle(h, a), i)
  {
  }

  // A handle goes into staging only by a rename, which puts the file there, and keeps the same file
  // until it answers.
  lemma StagingPhase(c: Config, s: State, h: nat, a: HandleAct)
    requires HandleEnabled(c, s.local, h, a)
    ensures var l' := HandleStep(c, s, h, a).local;
      h in l'.handles && InStaging(l'.handles[h].phase) ==>
        if a.Rename? then OnDisk(l', l'.handles[h].staging)
        else
          && h in s.local.handles && InStaging(s.local.handles[h].phase)
          && s.local.handles[h].staging == l'.handles[h].staging
          && !((a.NewTemp? && !a.ok) || a.DirectRemove?)
  {
  }

  lemma OtherHandles(c: Config, s: State, h: nat, a: HandleAct, k: nat)
    requires HandleEnabled(c, s.local, h, a) && k != h
    ensures var l' := HandleStep(c, s, h, a).local;
      k in l'.handles ==> k in s.local.handles && l'.handles[k] == s.local.handles[k]
  {
  }

  lemma HandlesStep(c: Config, s: State, e: Event)
    requires Inv(c, s) && Enabled(c, s, e) && HandlesHaveFiles(s.local)
    ensures HandlesHaveFiles(Step(c, s, e).local)
  {
    hide HandleEnabled, HandleStep, WorkerEnabled, PoolStep, HistoryInv, JobsInv, FilesInv, StopInv;
    var l, l' := s.local, Step(c, s, e).local;
    forall h <- l'.handles | InStaging(l'.handles[h].phase) ensures OnDisk(l', l'.handles[h].staging) {
      var i := l'.handles[h].staging;
      if e.OfHandle? {
        if e.h == h { StagingPhase(c, s, h, e.act); } else { OtherHandles(c, s, e.h, e.act, h); }
      }
      if !(e.OfHandle? && e.h == h && e.act.Rename?) && !OnDisk(l', i) {
        FileTaken(c, s, e, i);
        NotTaken(c, s, e, h);
      }
    }
  }

  // Nobody else takes the file of a handle that has not answered.
  lemma NotTaken(c: Config, s: State, e: Event, h: nat)
    requires Inv(c, s) && h in s.local.handles && InStaging(s.local.handles[h].phase)
    requires TakenBy(s, e, s.local.handles[h].staging)
    ensures e.OfHandle? && e.h == h
  {
    var l, i := s.local, s.local.handles[h].staging;
    assert HandleInv(l, s.log.puts, l.handles[h]);
    if e.OfWorker? {
      JobPromised(c, s, e.w);
    }
  }

  lemma JobPromised(c: Config, s: State, w: nat)
    requires Inv(c, s) && w < |s.pool.workers| && s.pool.workers[w].Busy?
    ensures var b := s.pool.workers[w];
      && b.ticket < |s.pool.submitted| && b.job == s.pool.submitted[b.ticket]
      && b.job.id in s.local.staged && s.local.staged[b.job.id].status == Promised
  {
    assert s.pool.workers[w] in s.pool.workers;
    assert WorkerInv(c, s.local.staged, s.log.puts, s.pool, s.pool.workers[w]);
    assert JobInv(s.local.staged, s.pool.workers[w].job);
  }

  lemma JobsStep(c: Config, s: State, e: Event)
    requires Inv(c, s) && Enabled(c, s, e) && HandlesHaveFiles(s.local) && JobsHaveFiles(s.local, s.pool)
    ensures JobsHaveFiles(Step(c, s, e).local, Step(c, s, e).pool)
  {
    hide HandleStep, WorkerEnabled, HandleEnabled, PoolStep, Inv;
    var s' := Step(c, s, e);
    var q, q' := s.pool, s'.pool;
    OutcomesFinal(c, s, e);
    forall t | 0 <= t < |q'.submitted| && !IsDelivered(q', t) ensures OnDisk(s'.local, q'.submitted[t].id) {
      if t < |q.submitted| {
        assert q.submitted[t] == q'.submitted[t];
        if !OnDisk(s'.local, q.submitted[t].id) {
          FileTaken(c, s, e, q.submitted[t].id);
          JobNotTaken(c, s, e, t);
        }
      } else {
        NewJob(c, s, e);
      }
    }
  }

  lemma JobNotTaken(c: Config, s: State, e: Event, t: nat)
    requires Inv(c, s) && Enabled(c, s, e) && t < |s.pool.submitted| && TakenBy(s, e, s.pool.submitted[t].id)
    ensures IsDelivered(Step(c, s, e).pool, t)
  {
    assert JobInv(s.local.staged, s.pool.submitted[t]);
    if e.OfWorker? {
      JobPromised(c, s, e.w);
    }
  }

  lemma NewJob(c: Config, s: State, e: Event)
    requires Inv(c, s) && Enabled(c, s, e)
    ensures var q, q' := s.pool, Step(c, s, e).pool;
      |q'.submitted| > |q.submitted| ==>
        && e.OfHandle? && In(s.local, e.h, Submitting) && |q'.submitted| == |q.submitted| + 1
        && q'.submitted[|q.submitted|].id == s.local.handles[e.h].staging
        && Step(c, s, e).local.files == s.local.files
  {
    if e.OfHandle? { HandleFlags(c, s, e.h, e.act); }
  }

  lemma {:induction false} RunHasFiles(c: Config, n: nat, ss: seq<State>, es: seq<Event>, k: nat)
    requires Run(c, n, ss, es) && k < |ss|
    ensures HandlesHaveFiles(ss[k].local) && JobsHaveFiles(ss[k].local, ss[k].pool)
  {
    hide HandlesHaveFiles, JobsHaveFiles, Inv, HandleEnabled, WorkerEnabled, HandleStep, WorkerStep;
    if k == 0 {
      NothingStaged(n);
    } else {
      RunHasFiles(c, n, ss, es, k - 1);
      RunKeepsInv(c, n, ss, es, k - 1);
      HandlesStep(c, ss[k - 1], es[k - 1]);
      JobsStep(c, ss[k - 1], es[k - 1]);
    }
  }

  lemma NothingStaged(n: nat)
    ensures HandlesHaveFiles(Init(n).local) && JobsHaveFiles(Init(n).local, Init(n).pool)
  {
  }

  // A job that has not been delivered, whatever became of it, has its whole staging file on disk.
  lemma UndeliveredKept(c: Config, n: nat, ss: seq<State>, es: seq<Event>, k: nat, t: nat)
    requires Run(c, n, ss, es) && k < |ss| && t < |ss[k].pool.submitted|
    requires !(t in ss[k].pool.outcomes && ss[k].pool.outcomes[t] == Delivered)
    ensures var l, i := ss[k].local, ss[k].pool.submitted[t].id;
      i in l.staged && Staging(i) in l.files && l.files[Staging(i)] == Replay(l.staged[i].writes)
  {
    hide HandleEnabled, WorkerEnabled, HandleStep, WorkerStep;
    RunKeepsInv(c, n, ss, es, k);
    RunHasFiles(c, n, ss, es, k);
    assert !IsDelivered(ss[k].pool, t);
    assert FileInv(ss[k].local, Staging(ss[k].pool.submitted[t].id));
  }
}
