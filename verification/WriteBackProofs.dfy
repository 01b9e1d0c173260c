/**
 Every event keeps the invariant of the write path: one lemma per event and part of the
 invariant. What an event does not touch follows from the frame lemmas.
 */
module WriteBackProofs {
  import opened Buffers
  import opened Ids
  import opened WriteBack

  // ---------------------------------------------------------------- frames

  // Accepted PUTs are never forgotten, what was staged never changes, and a Flush's answer is final.
  predicate Grows(st: map<nat, StagedFile>, puts: seq<Put>, st': map<nat, StagedFile>, puts': seq<Put>) {
    && puts <= puts'
    && (forall i <- st ::
          && i in st'
          && st'[i].target == st[i].target
          && st'[i].writes == st[i].writes
          && (st[i].status != InFlight ==> st'[i].status == st[i].status))
  }

  lemma AcceptedKept(st: map<nat, StagedFile>, puts: seq<Put>, st': map<nat, StagedFile>, puts': seq<Put>, i: nat)
    requires Grows(st, puts, st', puts') && Accepted(st, puts, i)
    ensures Accepted(st', puts', i)
  {
  }

  lemma JobsFrame(c: Config, st: map<nat, StagedFile>, puts: seq<Put>, st': map<nat, StagedFile>, puts': seq<Put>,
                  q: Pool)
    requires JobsInv(c, st, q) && Grows(st, puts, st', puts')
    ensures JobsInv(c, st', q)
  {
  }

  lemma WorkersFrame(c: Config, st: map<nat, StagedFile>, puts: seq<Put>, st': map<nat, StagedFile>, puts': seq<Put>,
                     q: Pool)
    requires WorkersInv(c, st, puts, q) && Grows(st, puts, st', puts')
    ensures WorkersInv(c, st', puts', q)
  {
  }

  lemma HistoryFrame(st: map<nat, StagedFile>, g: Log, st': map<nat, StagedFile>, puts': seq<Put>)
    requires HistoryInv(st, g) && Grows(st, g.puts, st', puts')
    requires forall p <- puts' :: PutInv(st', p)
    ensures HistoryInv(st', g.(puts := puts'))
  {
    forall r <- g.removals ensures RemovalInv(st', puts', r) {
      assert RemovalInv(st, g.puts, r);
      assert puts'[..r.after] == g.puts[..r.after];
    }
  }

  // ---------------------------------------------------------------- open, write, release

  lemma OpenKeeps(l: Local, puts: seq<Put>, h: nat, target: ObjKey, created: bool)
    requires FilesInv(l, puts) && HandlesInv(l, puts) && h !in l.handles
    ensures FilesInv(DoOpen(l, h, target, created), puts) && HandlesInv(DoOpen(l, h, target, created), puts)
  {
  }

  lemma WriteKeeps(l: Local, puts: seq<Put>, h: nat, data: Write, ok: bool)
    requires FilesInv(l, puts) && HandlesInv(l, puts)
    requires In(l, h, Ready) && l.handles[h].tmp.Opened? && Tmp(l.handles[h].tmp.id) in l.files
    ensures FilesInv(DoWrite(l, h, data, ok), puts) && HandlesInv(DoWrite(l, h, data, ok), puts)
  {
    hide HandleInv, Apart, Replay, WriteAt;
    var l' := DoWrite(l, h, data, ok);
    forall k <- l'.handles ensures HandleInv(l', puts, l'.handles[k]) {
      WriteKeepsHandle(l, puts, h, data, ok, k);
    }
    forall k, m | k in l'.handles && m in l'.handles && k != m ensures Apart(l'.handles[k], l'.handles[m]) {
      SameNames(l.handles[k], l.handles[m], l'.handles[k], l'.handles[m]);
    }
  }

  lemma WriteKeepsHandle(l: Local, puts: seq<Put>, h: nat, data: Write, ok: bool, k: nat)
    requires HandlesInv(l, puts) && k in l.handles
    requires In(l, h, Ready) && l.handles[h].tmp.Opened? && Tmp(l.handles[h].tmp.id) in l.files
    ensures HandleInv(DoWrite(l, h, data, ok), puts, DoWrite(l, h, data, ok).handles[k])
  {
    hide Replay, WriteAt;
    assert HandleInv(l, puts, l.handles[k]) && HandleInv(l, puts, l.handles[h]);
    ReplayAppend(l.handles[h].writes, data);
    if k != h {
      assert Apart(l.handles[h], l.handles[k]);
    }
  }

  // Handles share a temp or staging file by what they are called there, not by what is in it.
  lemma SameNames(x: Handle, y: Handle, x': Handle, y': Handle)
    requires x'.tmp == x.tmp && x'.phase == x.phase && x'.staging == x.staging
    requires y'.tmp == y.tmp && y'.phase == y.phase && y'.staging == y.staging
    ensures Apart(x, y) ==> Apart(x', y')
  {
  }

  lemma ReleaseKeeps(l: Local, puts: seq<Put>, h: nat)
    requires FilesInv(l, puts) && HandlesInv(l, puts) && In(l, h, Ready)
    ensures FilesInv(DoRelease(l, h), puts) && HandlesInv(DoRelease(l, h), puts)
  {
  }

  // ---------------------------------------------------------------- the steps of Flush

  lemma RenameKeepsFiles(l: Local, puts: seq<Put>, h: nat)
    requires FilesInv(l, puts) && HandlesInv(l, puts) && Flushable(l, h)
    ensures FilesInv(DoRename(l, h), puts)
    ensures Grows(l.staged, puts, DoRename(l, h).staged, puts)
  {
    assert FileInv(l, Tmp(l.handles[h].tmp.id));
    assert HandleInv(l, puts, l.handles[h]);
  }

  lemma RenameKeepsHandles(l: Local, puts: seq<Put>, h: nat)
    requires FilesInv(l, puts) && HandlesInv(l, puts) && Flushable(l, h)
    ensures HandlesInv(DoRename(l, h), puts)
  {
    var l' := DoRename(l, h);
    assert FileInv(l, Tmp(l.handles[h].tmp.id));
    forall k <- l'.handles ensures HandleInv(l', puts, l'.handles[k]) {
      assert HandleInv(l, puts, l.handles[k]);
      if k != h { assert Apart(l.handles[h], l.handles[k]); }
    }
    forall k, m | k in l'.handles && m in l'.handles && k != m ensures Apart(l'.handles[k], l'.handles[m]) {
      assert HandleInv(l, puts, l.handles[k]) && HandleInv(l, puts, l.handles[m]);
      assert Apart(l.handles[k], l.handles[m]);
    }
  }

  lemma RenameFailedKeeps(l: Local, puts: seq<Put>, h: nat, reopened: bool)
    requires FilesInv(l, puts) && HandlesInv(l, puts) && Flushable(l, h)
    ensures FilesInv(DoRenameFailed(l, h, reopened), puts) && HandlesInv(DoRenameFailed(l, h, reopened), puts)
  {
  }

  lemma StartSyncKeeps(l: Local, puts: seq<Put>, h: nat)
    requires FilesInv(l, puts) && HandlesInv(l, puts) && Flushable(l, h)
    ensures FilesInv(SetPhase(l, h, Syncing), puts) && HandlesInv(SetPhase(l, h, Syncing), puts)
  {
  }

  lemma NewTempKeeps(l: Local, puts: seq<Put>, h: nat)
    requires FilesInv(l, puts) && HandlesInv(l, puts) && In(l, h, Renamed)
    ensures FilesInv(DoNewTemp(l, h), puts) && HandlesInv(DoNewTemp(l, h), puts)
  {
  }

  lemma PublishKeeps(l: Local, puts: seq<Put>, h: nat)
    requires FilesInv(l, puts) && HandlesInv(l, puts) && In(l, h, Staged)
    ensures FilesInv(DoPublish(l, h), puts) && HandlesInv(DoPublish(l, h), puts)
  {
  }

  lemma FallbackKeeps(l: Local, puts: seq<Put>, h: nat, p: Phase)
    requires FilesInv(l, puts) && HandlesInv(l, puts)
    requires (In(l, h, Submitting) && p == Fallback) || (In(l, h, Fallback) && p == DirectDone(false))
    ensures FilesInv(SetPhase(l, h, p), puts) && HandlesInv(SetPhase(l, h, p), puts)
  {
  }

  // A Flush answers 0 only while the file is there or after S3 has taken it.
  lemma AnswerKeepsFiles(l: Local, puts: seq<Put>, h: nat, st: Status, removed: bool)
    requires FilesInv(l, puts) && HandlesInv(l, puts) && StagedBy(l, h) && st != InFlight
    requires removed ==> st == Rejected || Accepted(l.staged, puts, l.handles[h].staging)
    ensures var l' := DoAnswer(DropFile(l, l.handles[h].staging, removed), h, st);
            FilesInv(l', puts) && Grows(l.staged, puts, l'.staged, puts)
  {
    var l' := DoAnswer(DropFile(l, l.handles[h].staging, removed), h, st);
    assert HandleInv(l, puts, l.handles[h]);
    assert Grows(l.staged, puts, l'.staged, puts);
    forall k <- l'.staged ensures StagedInv(l', puts, k) {
      assert StagedInv(l, puts, k);
    }
  }

  lemma AnswerKeepsHandles(l: Local, puts: seq<Put>, h: nat, st: Status, removed: bool)
    requires FilesInv(l, puts) && HandlesInv(l, puts) && StagedBy(l, h) && st != InFlight
    ensures HandlesInv(DoAnswer(DropFile(l, l.handles[h].staging, removed), h, st), puts)
  {
    var l' := DoAnswer(DropFile(l, l.handles[h].staging, removed), h, st);
    forall k <- l'.handles ensures HandleInv(l', puts, l'.handles[k]) {
      assert HandleInv(l, puts, l.handles[k]);
      if k != h { assert Apart(l.handles[h], l.handles[k]); }
    }
    forall k, m | k in l'.handles && m in l'.handles && k != m ensures Apart(l'.handles[k], l'.handles[m]) {
      assert Apart(l.handles[k], l.handles[m]);
    }
  }

  // S3 takes what a staging file holds: exactly the PUT that file stands for.
  lemma PutStagedIsPutOf(l: Local, puts: seq<Put>, i: nat)
    requires FilesInv(l, puts) && Staging(i) in l.files && i in l.staged
    ensures PutStaged(l, l.staged[i].target, i) == PutOf(l.staged, i)
    ensures PutInv(l.staged, PutOf(l.staged, i))
  {
    assert FileInv(l, Staging(i));
  }

  lemma PutKeeps(l: Local, puts: seq<Put>, p: Put)
    requires FilesInv(l, puts) && HandlesInv(l, puts)
    ensures FilesInv(l, puts + [p]) && HandlesInv(l, puts + [p]) && Grows(l.staged, puts, l.staged, puts + [p])
  {
    forall i <- l.staged ensures StagedInv(l, puts + [p], i) {
      assert StagedInv(l, puts, i);
    }
    forall h <- l.handles ensures HandleInv(l, puts + [p], l.handles[h]) {
      assert HandleInv(l, puts, l.handles[h]);
    }
  }

  lemma DirectDoneKeeps(l: Local, puts: seq<Put>, h: nat)
    requires FilesInv(l, puts) && HandlesInv(l, puts) && In(l, h, Fallback) && StagedBy(l, h)
    requires Accepted(l.staged, puts, l.handles[h].staging)
    ensures FilesInv(SetPhase(l, h, DirectDone(true)), puts) && HandlesInv(SetPhase(l, h, DirectDone(true)), puts)
  {
  }

  lemma SyncedKeeps(l: Local, puts: seq<Put>, h: nat)
    requires FilesInv(l, puts) && HandlesInv(l, puts) && In(l, h, Syncing)
    ensures FilesInv(DoSynced(l, h), puts) && HandlesInv(DoSynced(l, h), puts)
    ensures FilesInv(SetPhase(l, h, Ready), puts) && HandlesInv(SetPhase(l, h, Ready), puts)
  {
  }

  lemma DropKeeps(l: Local, puts: seq<Put>, i: nat, removed: bool)
    requires FilesInv(l, puts) && HandlesInv(l, puts) && Accepted(l.staged, puts, i)
    ensures FilesInv(DropFile(l, i, removed), puts) && HandlesInv(DropFile(l, i, removed), puts)
  {
  }

  // ---------------------------------------------------------------- history

  lemma HistoryAfterDrop(l: Local, g: Log, i: nat, removed: bool)
    requires HistoryInv(l.staged, g) && i in l.staged
    requires removed ==> l.staged[i].status == Rejected || Accepted(l.staged, g.puts, i)
    ensures HistoryInv(l.staged, DropLog(l, g, i, removed))
  {
    assert g.puts[..|g.puts|] == g.puts;
  }

  // ---------------------------------------------------------------- jobs

  lemma EnqueueKeepsJobs(c: Config, l: Local, q: Pool, h: nat)
    requires JobsInv(c, l.staged, q) && StagedBy(l, h) && |q.queue| < c.capacity
    requires l.staged[l.handles[h].staging].status == InFlight
    requires l.staged[l.handles[h].staging].target == l.handles[h].target
    ensures JobsInv(c, DoAnswer(l, h, Promised).staged, DoEnqueue(q, Job(l.handles[h].target, l.handles[h].staging)))
  {
    var j := Job(l.handles[h].target, l.handles[h].staging);
    forall k <- q.submitted ensures k.id != j.id {
      assert JobInv(l.staged, k);
    }
  }

  lemma EnqueueKeepsWorkers(c: Config, st: map<nat, StagedFile>, puts: seq<Put>, q: Pool, j: Job)
    requires WorkersInv(c, st, puts, q) && StopInv(q) && |q.submitted| == |q.uploads|
    ensures WorkersInv(c, st, puts, DoEnqueue(q, j)) && StopInv(DoEnqueue(q, j))
  {
    var q' := DoEnqueue(q, j);
    forall b <- q'.workers ensures WorkerInv(c, st, puts, q', b) {
      assert WorkerInv(c, st, puts, q, b);
    }
  }

  lemma TakeKeepsJobs(c: Config, st: map<nat, StagedFile>, q: Pool, w: nat)
    requires JobsInv(c, st, q) && CanTake(q, w)
    ensures JobsInv(c, st, DoTake(q, w))
  {
  }

  // ---------------------------------------------------------------- workers

  // Worker w changed, and with it no ticket but its own: the others are as they were.
  lemma OthersKept(q: Pool, q': Pool, w: nat)
    requires w < |q.workers| == |q'.workers| && q'.workers == q.workers[w := q'.workers[w]]
    requires forall t :: 0 <= t < q.taken && t !in q.outcomes ==> Held(q.workers, t)
    ensures forall t :: 0 <= t < q.taken && t !in q.outcomes && !Holds(q.workers[w], t) ==> Held(q'.workers, t)
  {
    forall t | 0 <= t < q.taken && t !in q.outcomes && !Holds(q.workers[w], t) ensures Held(q'.workers, t) {
      var b :| b in q.workers && Holds(b, t);
      var v :| 0 <= v < |q.workers| && q.workers[v] == b;
      assert q'.workers[v] == b;
    }
  }

  lemma TakeKeepsWorkers(c: Config, st: map<nat, StagedFile>, puts: seq<Put>, q: Pool, w: nat)
    requires JobsInv(c, st, q) && WorkersInv(c, st, puts, q) && CanTake(q, w)
    ensures WorkersInv(c, st, puts, DoTake(q, w))
  {
    var q' := DoTake(q, w);
    OthersKept(q, q', w);
    assert q'.workers[w] in q'.workers && Holds(q'.workers[w], q.taken);
    assert q.queue[0] == q.submitted[q.taken];
    forall v | 0 <= v < |q'.workers| ensures WorkerInv(c, st, puts, q', q'.workers[v]) {
      assert WorkerInv(c, st, puts, q, q.workers[v]);
    }
    forall v, u | 0 <= v < u < |q'.workers| && q'.workers[v].Busy?
      ensures !Holds(q'.workers[u], q'.workers[v].ticket)
    {
      assert WorkerInv(c, st, puts, q, q.workers[v]) && WorkerInv(c, st, puts, q, q.workers[u]);
    }
  }

  lemma TakeKeepsStop(q: Pool, w: nat)
    requires StopInv(q) && CanTake(q, w)
    ensures StopInv(DoTake(q, w))
  {
  }

  lemma SetWorkerKeeps(c: Config, st: map<nat, StagedFile>, puts: seq<Put>, q: Pool, w: nat, x: Worker)
    requires WorkersInv(c, st, puts, q) && StopInv(q) && w < |q.workers|
    requires (q.workers[w] == Selecting && x == Draining && q.stopping)
          || (q.workers[w] == Draining && x == Exited && q.queue == [])
          || (BusyAt(q, w, Waiting) && x == q.workers[w].(stage := Uploading))
    ensures WorkersInv(c, st, puts, SetWorker(q, w, x)) && StopInv(SetWorker(q, w, x))
  {
    var q' := SetWorker(q, w, x);
    OthersKept(q, q', w);
    assert q'.workers[w] in q'.workers;
    assert q.workers[w] in q.workers;
    forall v | 0 <= v < |q'.workers| ensures WorkerInv(c, st, puts, q', q'.workers[v]) {
      assert WorkerInv(c, st, puts, q, q.workers[v]);
    }
  }

  lemma ResolveKeeps(c: Config, st: map<nat, StagedFile>, puts: seq<Put>, q: Pool, w: nat, o: Outcome)
    requires WorkersInv(c, st, puts, q) && StopInv(q) && w < |q.workers| && q.workers[w].Busy?
    requires o == Delivered ==> Accepted(st, puts, q.workers[w].job.id)
    ensures WorkersInv(c, st, puts, DoResolve(q, w, o)) && StopInv(DoResolve(q, w, o))
  {
    var q' := DoResolve(q, w, o);
    OthersKept(q, q', w);
    assert q.workers[w] in q.workers;
    forall b <- q'.workers ensures WorkerInv(c, st, puts, q', b) {
      var v :| 0 <= v < |q'.workers| && q'.workers[v] == b;
      if v != w {
        assert WorkerInv(c, st, puts, q, q.workers[v]);
        assert b.Busy? ==> b.ticket != q.workers[w].ticket;
      }
    }
  }

  // One more attempt counted for worker w's ticket, and the worker moved on accordingly.
  lemma CountKeeps(c: Config, st: map<nat, StagedFile>, puts: seq<Put>, q: Pool, w: nat, x: Worker)
    requires JobsInv(c, st, q) && WorkersInv(c, st, puts, q) && StopInv(q) && BusyAt(q, w, Uploading)
    requires q.workers[w].job.target.bucket in c.clients
    requires x.Busy? && x.job == q.workers[w].job && x.ticket == q.workers[w].ticket
    requires x.draining == q.workers[w].draining
    requires (x.stage == Uploaded && x.attempt == q.workers[w].attempt && Accepted(st, puts, x.job.id))
          || (x.stage == Waiting && x.attempt == q.workers[w].attempt + 1 <= c.maxRetries)
    ensures var q' := SetWorker(CountUpload(q, q.workers[w].ticket), w, x);
            JobsInv(c, st, q') && WorkersInv(c, st, puts, q') && StopInv(q')
  {
    var q' := SetWorker(CountUpload(q, q.workers[w].ticket), w, x);
    OthersKept(q, q', w);
    assert q.workers[w] in q.workers;
    assert q'.workers[w] in q'.workers && Holds(q'.workers[w], q.workers[w].ticket);
    forall b <- q'.workers ensures WorkerInv(c, st, puts, q', b) {
      var v :| 0 <= v < |q'.workers| && q'.workers[v] == b;
      assert WorkerInv(c, st, puts, q, q.workers[v]);
    }
  }

  // ---------------------------------------------------------------- every event

  // Only the open-file side changed.
  lemma LocalStep(c: Config, s: State, l': Local)
    requires Inv(c, s) && FilesInv(l', s.log.puts) && HandlesInv(l', s.log.puts)
    requires Grows(s.local.staged, s.log.puts, l'.staged, s.log.puts)
    ensures Inv(c, s.(local := l'))
  {
    var st, puts := s.local.staged, s.log.puts;
    JobsFrame(c, st, puts, l'.staged, puts, s.pool);
    WorkersFrame(c, st, puts, l'.staged, puts, s.pool);
    forall p <- puts ensures PutInv(l'.staged, p) {
      assert PutInv(st, p);
    }
    HistoryFrame(st, s.log, l'.staged, puts);
  }

  // The Flush returns EIO and disowns its staging file.
  lemma RefusedKeeps(c: Config, s: State, h: nat, removed: bool)
    requires Inv(c, s) && StagedBy(s.local, h)
    ensures Inv(c, Refused(s, h, removed))
  {
    var l, puts := s.local, s.log.puts;
    var i := l.handles[h].staging;
    AnswerKeepsFiles(l, puts, h, Rejected, removed);
    AnswerKeepsHandles(l, puts, h, Rejected, removed);
    var l' := DoAnswer(DropFile(l, i, removed), h, Rejected);
    LocalStep(c, s, l');
    if removed && Staging(i) in l.files {
      assert RemovalInv(l'.staged, puts, Removal(i, |puts|));
    }
  }

  // The Flush returns 0 after S3 has taken the file it staged.
  lemma DirectAnswerKeeps(c: Config, s: State, h: nat, removed: bool)
    requires Inv(c, s) && In(s.local, h, DirectDone(true)) && StagedBy(s.local, h)
    ensures var i := s.local.handles[h].staging;
            Inv(c, Answered(s, h, DoAnswer(DropFile(s.local, i, removed), h, Promised), s.pool,
                            DropLog(s.local, s.log, i, removed)))
  {
    var l, puts := s.local, s.log.puts;
    var i := l.handles[h].staging;
    assert HandleInv(l, puts, l.handles[h]);
    AnswerKeepsFiles(l, puts, h, Promised, removed);
    AnswerKeepsHandles(l, puts, h, Promised, removed);
    var l' := DoAnswer(DropFile(l, i, removed), h, Promised);
    LocalStep(c, s, l');
    AcceptedKept(l.staged, puts, l'.staged, puts, i);
    if removed && Staging(i) in l.files {
      assert puts[..|puts|] == puts;
      assert RemovalInv(l'.staged, puts, Removal(i, |puts|));
    }
  }

  // The Flush returns 0 with its job on the queue.
  lemma QueuedKeeps(c: Config, s: State, h: nat)
    requires Inv(c, s) && In(s.local, h, Submitting) && StagedBy(s.local, h) && |s.pool.queue| < c.capacity
    ensures var x := s.local.handles[h];
            Inv(c, Answered(s, h, DoAnswer(s.local, h, Promised), DoEnqueue(s.pool, Job(x.target, x.staging)), s.log))
  {
    var l, q, puts := s.local, s.pool, s.log.puts;
    var x := l.handles[h];
    assert HandleInv(l, puts, x);
    AnswerKeepsFiles(l, puts, h, Promised, false);
    AnswerKeepsHandles(l, puts, h, Promised, false);
    var l' := DoAnswer(l, h, Promised);
    LocalStep(c, s, l');
    EnqueueKeepsJobs(c, l, q, h);
    EnqueueKeepsWorkers(c, l'.staged, puts, q, Job(x.target, x.staging));
    assert FlushInv(l'.staged, puts, Flush(x.target, Staging(x.staging), l.staged[x.staging].writes));
  }

  // S3 has taken p: everything known before is still known.
  lemma PutStep(c: Config, s: State, p: Put)
    requires Inv(c, s) && PutInv(s.local.staged, p)
    ensures Inv(c, s.(log := s.log.(puts := s.log.puts + [p])))
  {
    var st, puts, puts' := s.local.staged, s.log.puts, s.log.puts + [p];
    PutKeeps(s.local, puts, p);
    WorkersFrame(c, st, puts, st, puts', s.pool);
    HistoryFrame(st, s.log, st, puts');
  }

  lemma DirectPutKeeps(c: Config, s: State, h: nat)
    requires Inv(c, s) && HandleEnabled(c, s.local, h, DirectPut(PutAccepted))
    ensures Inv(c, HandleStep(c, s, h, DirectPut(PutAccepted)))
  {
    var l, puts := s.local, s.log.puts;
    var x := l.handles[h];
    assert HandleInv(l, puts, x);
    var p := PutOf(l.staged, x.staging);
    PutStagedIsPutOf(l, puts, x.staging);
    PutStep(c, s, p);
    assert p in puts + [p];
    DirectDoneKeeps(l, puts + [p], h);
    LocalStep(c, s.(log := s.log.(puts := puts + [p])), SetPhase(l, h, DirectDone(true)));
  }

  lemma SyncPutKeeps(c: Config, s: State, h: nat)
    requires Inv(c, s) && HandleEnabled(c, s.local, h, SyncPut(true))
    ensures Inv(c, HandleStep(c, s, h, SyncPut(true)))
  {
    var l, puts := s.local, s.log.puts;
    var x := l.handles[h];
    assert HandleInv(l, puts, x);
    var p := Put(x.target, Tmp(x.tmp.id), l.files[Tmp(x.tmp.id)], x.writes);
    PutStep(c, s, p);
    SyncedKeeps(l, puts + [p], h);
    LocalStep(c, s.(log := s.log.(puts := puts + [p])), DoSynced(l, h));
    assert p in puts + [p];
  }

  // Actions that change the open-file side only.
  lemma PlainHandleStep(c: Config, s: State, h: nat, a: HandleAct)
    requires Inv(c, s) && HandleEnabled(c, s.local, h, a)
    requires a.Open? || a.WriteData? || a.Release? || a.StartSync? || a.Publish? || a.Rename? || (a.NewTemp? && a.ok)
    ensures Inv(c, HandleStep(c, s, h, a))
  {
    var l, puts := s.local, s.log.puts;
    match a {
      case Open(target, created) => OpenKeeps(l, puts, h, target, created);
      case WriteData(data, ok) => WriteKeeps(l, puts, h, data, ok);
      case Release => ReleaseKeeps(l, puts, h);
      case StartSync => StartSyncKeeps(l, puts, h);
      case Publish => PublishKeeps(l, puts, h);
      case NewTemp(_, _) => NewTempKeeps(l, puts, h);
      case Rename(ok, reopened) =>
        if ok {
          RenameKeepsFiles(l, puts, h);
          RenameKeepsHandles(l, puts, h);
        } else {
          RenameFailedKeeps(l, puts, h, reopened);
        }
    }
    LocalStep(c, s, HandleStep(c, s, h, a).local);
  }

  lemma HandleStepKeepsInv(c: Config, s: State, h: nat, a: HandleAct)
    requires Inv(c, s) && HandleEnabled(c, s.local, h, a)
    ensures Inv(c, HandleStep(c, s, h, a))
  {
    match a {
      case NewTemp(ok, removed) =>
        if ok { PlainHandleStep(c, s, h, a); } else { RefusedKeeps(c, s, h, removed); }
      case Submit =>
        if |s.pool.queue| < c.capacity {
          QueuedKeeps(c, s, h);
        } else {
          FallbackKeeps(s.local, s.log.puts, h, Fallback);
          LocalStep(c, s, SetPhase(s.local, h, Fallback));
        }
      case DirectPut(r) =>
        if r == CannotOpen {
          RefusedKeeps(c, s, h, false);
        } else if r == PutFailed {
          FallbackKeeps(s.local, s.log.puts, h, DirectDone(false));
          LocalStep(c, s, SetPhase(s.local, h, DirectDone(false)));
        } else {
          DirectPutKeeps(c, s, h);
        }
      case DirectRemove(removed) =>
        if s.local.handles[h].phase.ok { DirectAnswerKeeps(c, s, h, removed); } else { RefusedKeeps(c, s, h, removed); }
      case SyncPut(ok) =>
        if ok {
          SyncPutKeeps(c, s, h);
        } else {
          SyncedKeeps(s.local, s.log.puts, h);
          LocalStep(c, s, SetPhase(s.local, h, Ready));
        }
      case _ => PlainHandleStep(c, s, h, a);
    }
  }

  lemma UploadedKeeps(c: Config, s: State, w: nat)
    requires Inv(c, s) && WorkerEnabled(c, s.local, s.pool, w, Upload(true))
    ensures Inv(c, WorkerStep(c, s, w, Upload(true)))
  {
    var l, q, puts := s.local, s.pool, s.log.puts;
    var b := q.workers[w];
    assert b in q.workers && WorkerInv(c, l.staged, puts, q, b);
    assert JobInv(l.staged, b.job);
    var p := PutOf(l.staged, b.job.id);
    PutStagedIsPutOf(l, puts, b.job.id);
    PutStep(c, s, p);
    assert p in puts + [p];
    CountKeeps(c, l.staged, puts + [p], q, w, b.(stage := Uploaded));
    DeliveredKeeps(c, l.staged, puts + [p], SetWorker(CountUpload(q, b.ticket), w, b.(stage := Uploaded)), b.ticket);
  }

  // The order in which S3 accepted the jobs is history only.
  lemma DeliveredKeeps(c: Config, st: map<nat, StagedFile>, puts: seq<Put>, q: Pool, t: nat)
    requires JobsInv(c, st, q) && WorkersInv(c, st, puts, q) && StopInv(q)
    ensures var q' := q.(delivered := q.delivered + [t]);
      JobsInv(c, st, q') && WorkersInv(c, st, puts, q') && StopInv(q')
  {
    var q' := q.(delivered := q.delivered + [t]);
    forall b <- q'.workers ensures WorkerInv(c, st, puts, q', b) {
      assert WorkerInv(c, st, puts, q, b);
    }
  }

  lemma ExhaustKeeps(c: Config, st: map<nat, StagedFile>, puts: seq<Put>, q: Pool, w: nat)
    requires JobsInv(c, st, q) && WorkersInv(c, st, puts, q) && StopInv(q) && BusyAt(q, w, Uploading)
    ensures var q' := DoResolve(CountUpload(q, q.workers[w].ticket), w, Exhausted);
            JobsInv(c, st, q') && WorkersInv(c, st, puts, q') && StopInv(q')
  {
    var t := q.workers[w].ticket;
    assert q.workers[w] in q.workers;
    ResolveKeeps(c, st, puts, q, w, Exhausted);
    var r, q' := DoResolve(q, w, Exhausted), DoResolve(CountUpload(q, t), w, Exhausted);
    forall b <- q'.workers ensures WorkerInv(c, st, puts, q', b) {
      assert WorkerInv(c, st, puts, r, b);
      assert t in r.outcomes;
    }
  }

  // Actions of a worker that touch nothing but the queue side.
  lemma PlainWorkerStep(c: Config, st: map<nat, StagedFile>, puts: seq<Put>, l: Local, q: Pool, w: nat, a: WorkerAct)
    requires JobsInv(c, st, q) && WorkersInv(c, st, puts, q) && StopInv(q) && WorkerEnabled(c, l, q, w, a)
    requires !a.Upload? && !a.RemoveStaged?
    ensures JobsInv(c, st, PoolStep(c, l, q, w, a))
    ensures WorkersInv(c, st, puts, PoolStep(c, l, q, w, a)) && StopInv(PoolStep(c, l, q, w, a))
  {
    assert q.workers[w] in q.workers && WorkerInv(c, st, puts, q, q.workers[w]);
    match a {
      case Take =>
        TakeKeepsJobs(c, st, q, w);
        TakeKeepsWorkers(c, st, puts, q, w);
        TakeKeepsStop(q, w);
      case SeeStop => SetWorkerKeeps(c, st, puts, q, w, Draining);
      case FindEmpty => SetWorkerKeeps(c, st, puts, q, w, Exited);
      case Retry => SetWorkerKeeps(c, st, puts, q, w, q.workers[w].(stage := Uploading));
      case FindNoClient => ResolveKeeps(c, st, puts, q, w, NoClient);
      case Abort => ResolveKeeps(c, st, puts, q, w, Aborted);
    }
  }

  lemma RemovedKeeps(c: Config, s: State, w: nat, removed: bool)
    requires Inv(c, s) && BusyAt(s.pool, w, Uploaded)
    ensures Inv(c, WorkerStep(c, s, w, RemoveStaged(removed)))
  {
    var l, q, puts := s.local, s.pool, s.log.puts;
    var b := q.workers[w];
    assert b in q.workers && WorkerInv(c, l.staged, puts, q, b);
    ResolveKeeps(c, l.staged, puts, q, w, Delivered);
    DropKeeps(l, puts, b.job.id, removed);
    HistoryAfterDrop(l, s.log, b.job.id, removed);
  }

  lemma UploadFailedKeeps(c: Config, st: map<nat, StagedFile>, puts: seq<Put>, q: Pool, w: nat)
    requires JobsInv(c, st, q) && WorkersInv(c, st, puts, q) && StopInv(q) && BusyAt(q, w, Uploading)
    requires q.workers[w].job.target.bucket in c.clients
    ensures var q' := DoUploadFailed(c, q, w); JobsInv(c, st, q') && WorkersInv(c, st, puts, q') && StopInv(q')
  {
    hide JobsInv, WorkersInv, StopInv;
    var b := q.workers[w];
    if b.attempt < c.maxRetries {
      CountKeeps(c, st, puts, q, w, Busy(b.job, b.ticket, b.attempt + 1, b.draining, Waiting));
    } else {
      ExhaustKeeps(c, st, puts, q, w);
    }
  }

  lemma WorkerStepKeepsInv(c: Config, s: State, w: nat, a: WorkerAct)
    requires Inv(c, s) && WorkerEnabled(c, s.local, s.pool, w, a)
    ensures Inv(c, WorkerStep(c, s, w, a))
  {
    if a == Upload(true) {
      UploadedKeeps(c, s, w);
    } else if a == Upload(false) {
      UploadFailedKeeps(c, s.local.staged, s.log.puts, s.pool, w);
    } else if a.RemoveStaged? {
      RemovedKeeps(c, s, w, a.removed);
    } else {
      PlainWorkerStep(c, s.local.staged, s.log.puts, s.local, s.pool, w, a);
    }
  }

  lemma StopKeeps(c: Config, s: State)
    requires Inv(c, s)
    ensures Inv(c, s.(pool := s.pool.(stopping := true)))
  {
    var q' := s.pool.(stopping := true);
    forall b <- q'.workers ensures WorkerInv(c, s.local.staged, s.log.puts, q', b) {
      assert WorkerInv(c, s.local.staged, s.log.puts, s.pool, b);
    }
  }

  lemma StepKeepsInv(c: Config, s: State, e: Event)
    requires Inv(c, s) && Enabled(c, s, e)
    ensures Inv(c, Step(c, s, e))
  {
    match e {
      case OfHandle(h, a) => HandleStepKeepsInv(c, s, h, a);
      case OfWorker(w, a) => WorkerStepKeepsInv(c, s, w, a);
      case Stop => StopKeeps(c, s);
    }
  }
}
