/**
 The code itself, as the goroutines run it: Handle.Flush and Handle.Write (internal/fuse/handle.go),
 Submit, worker, drain and process (internal/catalog/writeback.go). Every shared action is an event
 of the transition system, and between two of its actions a goroutine is interrupted by any
 sequence of events of the others. So each method is one thread of a run, and what is proved
 of all runs is true of the code.
 */
module WriteBackThreads {
  import opened Ids
  import opened Buffers
  import opened WriteBack
  import opened WriteBackProofs
  import opened WriteBackTheorems
  import opened WriteBackFiles

  datatype Errno = OK | EIO

  // What the operating system and S3 answer during one Flush, and what the others do
  // before each of its later actions.
  datatype FlushWorld = FlushWorld(
    renamed: bool, reopened: bool, created: bool, removed: bool, direct: Direct, putOk: bool,
    others: seq<seq<Event>>)
  {
    function Before(k: nat): seq<Event> {
      if k < |others| then others[k] else []
    }
  }

  // One turn of a worker: the others' events, then the answers to its next action.
  datatype Turn = Turn(others: seq<Event>, uploadOk: bool, pickStop: bool, removed: bool)

  // The answers to turn k; nothing is scripted after the end.
  function TurnAt(script: seq<Turn>, k: nat): Turn {
    if k < |script| then script[k] else Turn([], true, true, true)
  }

  // process, started at `pos`, meets these turns at its k-th attempt: before a retry, for the upload,
  // and for the removal.
  function RetryTurn(script: seq<Turn>, pos: nat, k: nat): Turn {
    TurnAt(script, pos + 3 * k)
  }

  function UploadTurn(script: seq<Turn>, pos: nat, k: nat): Turn {
    TurnAt(script, pos + 3 * k + 1)
  }

  function RemoveTurn(script: seq<Turn>, pos: nat, k: nat): Turn {
    TurnAt(script, pos + 3 * k + 2)
  }

  lemma NoMoreTurns(script: seq<Turn>, pos: nat)
    ensures pos >= |script| ==> forall k :: pos <= k ==> TurnAt(script, k).others == []
  {
  }

  function Left(script: seq<Turn>, k: nat): nat {
    if k < |script| then |script| - k else 0
  }

  predicate Own(e: Event, h: nat) { e.OfHandle? && e.h == h }
  predicate OwnW(e: Event, w: nat) { e.OfWorker? && e.w == w }

  // What the others leave alone while handle h is in the middle of a Flush.
  predicate HandleSpared(s: State, s': State, h: nat) {
    && h in s.local.handles && h in s'.local.handles
    && s'.local.handles[h] == s.local.handles[h]
    && Grows(s.local.staged, s.log.puts, s'.local.staged, s'.log.puts)
    && s.log.flushes <= s'.log.flushes
  }

  predicate WorkerSpared(s: State, s': State, w: nat) {
    && |s'.pool.workers| == |s.pool.workers|
    && (w < |s.pool.workers| ==> s'.pool.workers[w] == s.pool.workers[w])
    && s.pool.submitted <= s'.pool.submitted
    && (s.pool.stopping ==> s'.pool.stopping)
    && OutcomesKept(s.pool, s'.pool)
  }

  lemma OthersSpareHandle(c: Config, s: State, e: Event, h: nat)
    requires Inv(c, s) && Enabled(c, s, e) && h in s.local.handles && !Own(e, h)
    ensures HandleSpared(s, Step(c, s, e), h)
  {
    StepGrows(c, s, e);
    if e.OfHandle? {
      OtherHandleSpares(c, s, e.h, e.act, h);
    }
  }

  lemma OtherHandleSpares(c: Config, s: State, k: nat, a: HandleAct, h: nat)
    requires HandleEnabled(c, s.local, k, a) && h in s.local.handles && k != h
    ensures var s' := HandleStep(c, s, k, a);
      h in s'.local.handles && s'.local.handles[h] == s.local.handles[h] && s.log.flushes <= s'.log.flushes
  {
  }

  lemma OthersSpareWorker(c: Config, s: State, e: Event, w: nat)
    requires Inv(c, s) && Enabled(c, s, e) && !OwnW(e, w)
    ensures WorkerSpared(s, Step(c, s, e), w)
  {
    OutcomesFinal(c, s, e);
    FlagsStep(c, s, e);
    match e {
      case OfHandle(h, a) => HandleFlags(c, s, h, a);
      case OfWorker(v, a) =>
        assert PoolStep(c, s.local, s.pool, v,
                        a).workers == s.pool.workers[v := PoolStep(c, s.local, s.pool, v, a).workers[v]];
      case Stop =>
    }
  }

  // Handle h is in this phase of a Flush that staged the temp file it had at the start.
  predicate Owns(s: State, h: nat, p: Phase, was: Handle)
    requires was.tmp.Opened?
  {
    && In(s.local, h, p) && StagedBy(s.local, h)
    && s.local.handles[h].target == was.target
    && s.local.handles[h].staging == was.tmp.id
    && s.local.staged[was.tmp.id].writes == was.writes
  }

  // Since the log stood at `since`, a Flush took charge of this handle's temp file and the writes in
  // it. No two handles share a temp file, so no other handle's Flush will do.
  predicate TookCharge(since: seq<Flush>, now: seq<Flush>, was: Handle)
    requires was.tmp.Opened?
  {
    since <= now && exists k :: |since| <= k < |now| && ChargeOf(now[k], was)
  }

  predicate ChargeOf(f: Flush, was: Handle)
    requires was.tmp.Opened?
  {
    f.path.id == was.tmp.id && f.target == was.target && f.writes == was.writes
  }

  // The handle has lost its temp file; every later Flush and write will say EIO.
  predicate Lost(was: Handle, x: Handle)
    requires was.tmp.Opened?
  {
    x.tmp == Shut(was.tmp.id) && x.dirty == was.dirty && x.writes == was.writes && x.target == was.target
  }

  // The handle goes on with a new, empty temp file.
  predicate StartsOver(was: Handle, x: Handle)
    requires was.tmp.Opened?
  {
    x.tmp.Opened? && x.tmp.id != was.tmp.id && !x.dirty && x.writes == [] && x.target == was.target
  }

  // From event number `from` on, the handle has offered its job and found the queue not full.
  predicate Queued(c: Config, run: seq<State>, events: seq<Event>, from: nat, h: nat)
    requires |run| == |events| + 1
  {
    exists i :: from <= i < |events| && events[i] == OfHandle(h, Submit) && |run[i].pool.queue| < c.capacity
  }

  lemma QueuedStays(c: Config, run: seq<State>, events: seq<Event>, run': seq<State>, events': seq<Event>, from: nat,
                    mid: nat, h: nat)
    requires |run| == |events| + 1 && |run'| == |events'| + 1 && run <= run' && events <= events'
    requires from <= mid <= |events|
    requires forall i :: from <= i < mid ==> events[i] != OfHandle(h, Submit)
    requires forall i :: |events| <= i < |events'| ==> events'[i] != OfHandle(h, Submit)
    ensures Queued(c, run', events', from, h) <==> Queued(c, run, events, mid, h)
  {
    if Queued(c, run, events, mid, h) {
      var i :| mid <= i < |events| && events[i] == OfHandle(h, Submit) && |run[i].pool.queue| < c.capacity;
      assert events'[i] == events[i] && run'[i] == run[i];
    }
  }

  // What became of the staging file made of this handle's temp file.
  predicate Answers(l: Local, was: Handle, st: Status)
    requires was.tmp.Opened?
  {
    was.tmp.id in l.staged && l.staged[was.tmp.id].status == st
  }

  predicate InS3(s: State, was: Handle)
    requires was.tmp.Opened?
  {
    Accepted(s.local.staged, s.log.puts, was.tmp.id)
  }

  lemma OwnsSpared(s: State, s': State, h: nat, p: Phase, was: Handle)
    requires was.tmp.Opened? && Owns(s, h, p, was) && HandleSpared(s, s', h)
    ensures Owns(s', h, p, was)
  {
  }

  // The Flush has answered: this handle, that log.
  predicate AnsweredAs(s: State, s': State, h: nat, was: Handle, ok: bool)
    requires was.tmp.Opened? && h in s.local.handles
  {
    && h in s'.local.handles && s'.local.handles[h] == s.local.handles[h].(phase := Ready)
    && Answers(s'.local, was, if ok then Promised else Rejected)
    && s'.log.flushes ==
         s.log.flushes + if ok then [Flush(was.target, Staging(was.tmp.id), was.writes)] else []
  }

  lemma NewTempEffect(c: Config, s: State, h: nat, ok: bool, removed: bool, was: Handle)
    requires was.tmp.Opened? && Inv(c, s) && HandlesHaveFiles(s.local) && Owns(s, h, Renamed, was)
    requires Lost(was, s.local.handles[h])
    ensures HandleEnabled(c, s.local, h, NewTemp(ok, removed))
    ensures var s' := HandleStep(c, s, h, NewTemp(ok, removed));
      if ok then
        && Owns(s', h, Staged, was) && StartsOver(was, s'.local.handles[h].(dirty := false))
        && s'.log.flushes == s.log.flushes
      else AnsweredAs(s, s', h, was, false) && (OnDisk(s'.local, was.tmp.id) <==> !removed)
  {
    assert HandleInv(s.local, s.log.puts, s.local.handles[h]);
  }

  lemma DirectPutEffect(c: Config, s: State, h: nat, d: Direct, was: Handle)
    requires was.tmp.Opened? && Inv(c, s) && HandlesHaveFiles(s.local) && Owns(s, h, Fallback, was)
    ensures HandleEnabled(c, s.local, h, DirectPut(d))
    ensures var s' := HandleStep(c, s, h, DirectPut(d));
      if d == CannotOpen then AnsweredAs(s, s', h, was, false) && OnDisk(s'.local, was.tmp.id)
      else
        && Owns(s', h, DirectDone(d == PutAccepted), was) && s'.log.flushes == s.log.flushes
        && s'.local.handles[h] == s.local.handles[h].(phase := DirectDone(d == PutAccepted))
  {
    hide Inv;
  }

  lemma DirectRemoveEffect(c: Config, s: State, h: nat, removed: bool, ok: bool, was: Handle)
    requires was.tmp.Opened? && Inv(c, s) && HandlesHaveFiles(s.local) && Owns(s, h, DirectDone(ok), was)
    ensures HandleEnabled(c, s.local, h, DirectRemove(removed))
    ensures var s' := HandleStep(c, s, h, DirectRemove(removed));
      && AnsweredAs(s, s', h, was, ok) && (ok ==> InS3(s', was))
      && (OnDisk(s'.local, was.tmp.id) <==> !removed)
  {
    assert HandleInv(s.local, s.log.puts, s.local.handles[h]);
  }

  lemma SubmitEffect(c: Config, s: State, h: nat, was: Handle)
    requires was.tmp.Opened? && HandlesHaveFiles(s.local) && Owns(s, h, Submitting, was)
    ensures HandleEnabled(c, s.local, h, Submit)
    ensures var s' := HandleStep(c, s, h, Submit);
      if |s.pool.queue| < c.capacity then
        && AnsweredAs(s, s', h, was, true) && OnDisk(s'.local, was.tmp.id)
        && s'.pool.submitted == s.pool.submitted + [Job(was.target, was.tmp.id)]
      else
        && Owns(s', h, Fallback, was) && s'.log.flushes == s.log.flushes
        && s'.local.handles[h] == s.local.handles[h].(phase := Fallback)
  {
  }

  lemma Charged(since: seq<Flush>, now: seq<Flush>, later: seq<Flush>, was: Handle)
    requires was.tmp.Opened? && since <= now
    requires later == now + [Flush(was.target, Staging(was.tmp.id), was.writes)]
    ensures TookCharge(since, later, was)
  {
    assert ChargeOf(later[|now|], was);
  }

  lemma ChargedSince(since: seq<Flush>, later: seq<Flush>, now: seq<Flush>, was: Handle)
    requires was.tmp.Opened? && since <= later && TookCharge(later, now, was)
    ensures TookCharge(since, now, was)
  {
  }

  lemma WriteEffect(c: Config, s: State, h: nat, data: Write, ok: bool)
    requires Inv(c, s) && In(s.local, h, Ready) && s.local.handles[h].tmp.Opened?
    ensures HandleEnabled(c, s.local, h, WriteData(data, ok))
    ensures var x, s' := s.local.handles[h], HandleStep(c, s, h, WriteData(data, ok));
      && s'.log == s.log && s'.pool == s.pool
      && s'.local.handles == s.local.handles[h := x.(dirty := x.dirty || ok, writes := x.writes + [data])]
  {
    assert HandleInv(s.local, s.log.puts, s.local.handles[h]);
  }

  class Threads {
    const c: Config
    var s: State
    // The run so far.
    ghost var start: nat
    ghost var run: seq<State>
    ghost var events: seq<Event>

    ghost predicate Valid()
      reads this
    {
      Run(c, start, run, events) && s == run[|run| - 1]
    }

    // The run has only been continued.
    twostate predicate Continues()
      reads this
    {
      old(run) <= run && old(events) <= events && start == old(start)
    }

    // Handle h has not offered a job since.
    twostate predicate Quiet(h: nat)
      reads this
    {
      forall i :: old(|events|) <= i < |events| ==> events[i] != OfHandle(h, Submit)
    }

    constructor (c: Config, workers: nat)
      ensures Valid() && this.c == c && s == Init(workers)
    {
      this.c := c;
      s, start, run, events := Init(workers), workers, [Init(workers)], [];
      new;
      assert Run(c, workers, run, events);
    }

    method Act(e: Event)
      requires Valid() && Enabled(c, s, e)
      modifies this
      ensures Valid() && Continues() && s == Step(c, old(s), e)
      ensures events == old(events) + [e]
    {
      ghost var before, evs := run, events;
      s := Step(c, s, e);
      run, events := run + [s], events + [e];
      forall i | 0 <= i < |events| ensures Enabled(c, run[i], events[i]) && run[i + 1] == Step(c, run[i], events[i]) {
        if i < |evs| {
          assert run[i] == before[i] && run[i + 1] == before[i + 1] && events[i] == evs[i];
        }
      }
    }

    // Other goroutines run while handle h holds its mutex.
    method OthersRun(others: seq<Event>, h: nat)
      requires Valid() && h in s.local.handles
      modifies this
      ensures Valid() && Continues() && HandleSpared(old(s), s, h) && Quiet(h)
    {
      for i := 0 to |others|
        invariant Valid() && Continues() && h in s.local.handles && Quiet(h)
        invariant HandleSpared(old(s), s, h)
      {
        if !Own(others[i], h) && Enabled(c, s, others[i]) {
          RunKeepsInv(c, start, run, events, |events|);
          OthersSpareHandle(c, s, others[i], h);
          Act(others[i]);
        }
      }
    }

    method OthersRunW(others: seq<Event>, w: nat)
      requires Valid()
      modifies this
      ensures Valid() && Continues() && WorkerSpared(old(s), s, w)
      ensures others == [] ==> s == old(s)
    {
      for i := 0 to |others|
        invariant Valid() && Continues() && WorkerSpared(old(s), s, w)
        invariant i == 0 ==> s == old(s)
      {
        if !OwnW(others[i], w) && Enabled(c, s, others[i]) {
          RunKeepsInv(c, start, run, events, |events|);
          OthersSpareWorker(c, s, others[i], w);
          Act(others[i]);
        }
      }
    }

    // ------------------------------------------------------------ internal/fuse/handle.go

    // newHandle: an empty temp file of its own. Create makes the handle dirty, so that even a file nobody
    // writes to is uploaded.
    method OpenFile(h: nat, target: ObjKey, created: bool)
      requires Valid() && h !in s.local.handles
      modifies this
      ensures Valid() && Continues() && s.log == old(s.log) && s.pool == old(s.pool)
      ensures exists id ::
        && Tmp(id) !in old(s.local.files) && s.local.files == old(s.local.files)[Tmp(id) := []]
        && s.local.handles == old(s.local.handles)[h := Handle(target, Opened(id), created, Ready, 0, [])]
    {
      RunKeepsInv(c, start, run, events, |events|);
      ghost var id := s.local.nextId;
      assert Tmp(id) in s.local.files ==> FileInv(s.local, Tmp(id));
      Act(OfHandle(h, Open(target, created)));
    }

    // Release: the temp file goes, whatever is in it; staging files stay.
    method ReleaseFile(h: nat)
      requires Valid() && In(s.local, h, Ready)
      modifies this
      ensures Valid() && Continues() && s.log == old(s.log) && s.pool == old(s.pool)
      ensures var x := old(s.local.handles[h]);
        && s.local.handles == old(s.local.handles)[h := x.(tmp := Dropped)]
        && s.local.files == old(s.local.files) - (if x.tmp == Dropped then {} else {Tmp(x.tmp.id)})
    {
      Act(OfHandle(h, Release));
    }

    // WriteAt fails on a file that was closed, and may fail after `written` bytes; those stay in the
    // file, though they do not make a clean handle dirty.
    method WriteBytes(h: nat, data: Write, written: nat) returns (r: Errno)
      requires Valid() && In(s.local, h, Ready) && written <= |data.data|
      modifies this
      ensures Valid() && Continues() && In(s.local, h, Ready)
      ensures var x := old(s.local.handles[h]);
        && (r == OK <==> x.tmp.Opened? && written == |data.data|)
        && (if !x.tmp.Opened? then s == old(s)
            else
              && s.log == old(s.log) && s.pool == old(s.pool)
              && s.local.handles == old(s.local.handles)[h :=
                   x.(dirty := x.dirty || r == OK, writes := x.writes + [Write(data.data[..written], data.off)])])
        && (r == OK ==> s.local.handles[h].dirty && s.local.handles[h].writes == x.writes + [data])
    {
      hide HandleEnabled, WorkerEnabled, HandleStep, WorkerStep, Inv, WriteAt;
      var x := s.local.handles[h];
      if !x.tmp.Opened? {
        return EIO;
      }
      RunKeepsInv(c, start, run, events, |events|);
      var ok, part := written == |data.data|, Write(data.data[..written], data.off);
      assert ok ==> part == data;
      WriteEffect(c, s, h, part, ok);
      Act(OfHandle(h, WriteData(part, ok)));
      return if ok then OK else EIO;
    }

    // syncUpload, holding the mutex.
    method SyncUpload(h: nat, world: FlushWorld) returns (r: Errno)
      requires Valid() && In(s.local, h, Syncing) && s.local.handles[h].tmp.Opened?
      modifies this
      ensures Valid() && Continues() && In(s.local, h, Ready)
      ensures r == OK <==> world.putOk
      ensures r == OK ==> TookCharge(old(s.log.flushes), s.log.flushes, old(s.local.handles[h]))
      ensures s.local.handles[h] ==
        old(s.local.handles[h]).(phase := Ready, dirty := if r == OK then false else old(s.local.handles[h].dirty))
    {
      OthersRun(world.Before(4), h);
      RunKeepsInv(c, start, run, events, |events|);
      assert HandleInv(s.local, s.log.puts, s.local.handles[h]);
      var x := s.local.handles[h];
      Act(OfHandle(h, SyncPut(world.putOk)));
      if world.putOk {
        assert s.log.flushes[|s.log.flushes| - 1] == Flush(x.target, Tmp(x.tmp.id), x.writes);
        return OK;
      }
      return EIO;
    }

    // syncUploadFromPath: the queue was full. The staging file is still there, so all depends on S3.
    method SyncUploadFromPath(h: nat, world: FlushWorld, ghost was: Handle) returns (r: Errno)
      requires was.tmp.Opened? && Valid() && Owns(s, h, Fallback, was)
      modifies this
      ensures Valid() && Continues() && Quiet(h) && In(s.local, h, Ready)
      ensures r == OK <==> world.direct == PutAccepted
      ensures r == OK ==> TookCharge(old(s.log.flushes), s.log.flushes, was) && InS3(s, was)
      ensures Answers(s.local, was, if r == OK then Promised else Rejected)
      ensures OnDisk(s.local, was.tmp.id) <==> world.direct == CannotOpen || !world.removed
      ensures s.local.handles[h] == old(s.local.handles[h]).(phase := Ready)
    {
      hide Inv, RunsFrom, HandleEnabled, HandleStep, WorkerEnabled, Grows, TookCharge, HandlesHaveFiles;
      OthersRun(world.Before(3), h);
      OwnsSpared(old(s), s, h, Fallback, was);
      FilesThere();
      DirectPutEffect(c, s, h, world.direct, was);
      Act(OfHandle(h, DirectPut(world.direct)));
      if world.direct == CannotOpen {
        return EIO;
      }
      ghost var before := s.log.flushes;
      var ok := CleanUp(h, world, world.direct == PutAccepted, was);
      if ok {
        ChargedSince(old(s.log.flushes), before, s.log.flushes, was);
      }
      return if ok then OK else EIO;
    }

    // The staging files of handles that have not answered are on disk.
    lemma FilesThere()
      requires Valid()
      ensures Inv(c, s) && HandlesHaveFiles(s.local)
    {
      hide HandleEnabled, WorkerEnabled, HandleStep, WorkerStep;
      RunKeepsInv(c, start, run, events, |events|);
      RunHasFiles(c, start, run, events, |events|);
    }

    // The deferred Close and Remove of syncUploadFromPath.
    method CleanUp(h: nat, world: FlushWorld, put: bool, ghost was: Handle) returns (ok: bool)
      requires was.tmp.Opened? && Valid() && Owns(s, h, DirectDone(put), was)
      modifies this
      ensures Valid() && Continues() && Quiet(h) && In(s.local, h, Ready)
      ensures ok == put && old(s.log.flushes) <= s.log.flushes
      ensures ok ==> TookCharge(old(s.log.flushes), s.log.flushes, was) && InS3(s, was)
      ensures Answers(s.local, was, if ok then Promised else Rejected)
      ensures OnDisk(s.local, was.tmp.id) <==> !world.removed
      ensures s.local.handles[h] == old(s.local.handles[h]).(phase := Ready)
    {
      hide Inv, RunsFrom, HandleEnabled, HandleStep, WorkerEnabled, Grows, TookCharge, HandlesHaveFiles;
      OthersRun(world.Before(5), h);
      OwnsSpared(old(s), s, h, DirectDone(put), was);
      FilesThere();
      DirectRemoveEffect(c, s, h, world.removed, put, was);
      ghost var before := s.log.flushes;
      ok := s.local.handles[h].phase.ok;
      Act(OfHandle(h, DirectRemove(world.removed)));
      if ok {
        Charged(old(s.log.flushes), before, s.log.flushes, was);
      }
    }

    // How a Flush ends that has staged its temp file. With a new temp file it answers 0 exactly if the
    // queue took the job or S3 took the file, and the file's fate says which; else EIO.
    twostate predicate StagedEnd(h: nat, world: FlushWorld, was: Handle, r: Errno)
      requires was.tmp.Opened? && h in s.local.handles && |run| == |events| + 1
      reads this
    {
      && (r == OK ==> TookCharge(old(s.log.flushes), s.log.flushes, was))
      && Answers(s.local, was, if r == OK then Promised else Rejected)
      && if !world.created then
           r == EIO && Lost(was, s.local.handles[h]) && (OnDisk(s.local, was.tmp.id) <==> !world.removed)
         else
           var queued := Queued(c, run, events, old(|events|), h);
           && StartsOver(was, s.local.handles[h])
           && (r == OK <==> queued || world.direct == PutAccepted)
           && (queued ==> Job(was.target, was.tmp.id) in s.pool.submitted && OnDisk(s.local, was.tmp.id))
           && (!queued ==> (OnDisk(s.local, was.tmp.id) <==> world.direct == CannotOpen || !world.removed))
           && (r == OK && !queued ==> InS3(s, was))
    }

    // Flush, called with the mutex free. A 0 for a dirty handle means: this Flush took charge of
    // exactly the writes made since open, or since the last staged flush. After an EIO the handle
    // is as it was, unless staging had begun: then it has lost its temp file, or, if a new one was
    // opened, it starts over.
    method FlushHandle(h: nat, world: FlushWorld) returns (r: Errno)
      requires Valid() && In(s.local, h, Ready)
      modifies this
      ensures Valid() && Continues() && In(s.local, h, Ready)
      ensures var was, x := old(s.local.handles[h]), s.local.handles[h];
        if !was.dirty then r == OK && s == old(s)
        else if !was.tmp.Opened? then r == EIO && s == old(s)
        else
          && (r == OK ==> TookCharge(old(s.log.flushes), s.log.flushes, was))
          && if c.writeBack && world.renamed then StagedEnd(h, world, was, r)
             else if c.writeBack && !world.reopened then r == EIO && Lost(was, x)
             else (r == OK <==> world.putOk) && x == was.(dirty := r == EIO)
    {
      hide Inv, HandleInv, RunsFrom, Run, TookCharge, HandleEnabled, HandleStep, Owns, StagedEnd;
      var x := s.local.handles[h];
      if !x.dirty {
        return OK;
      }
      if !x.tmp.Opened? {
        return EIO;
      }
      CanFlush(h);
      if c.writeBack {
        r := FlushWriteBack(h, world);
      } else {
        r := FlushSync(h, world);
      }
    }

    // The temp file of an open handle is there.
    lemma CanFlush(h: nat)
      requires Valid() && In(s.local, h, Ready) && s.local.handles[h].dirty && s.local.handles[h].tmp.Opened?
      ensures Flushable(s.local, h)
    {
      RunKeepsInv(c, start, run, events, |events|);
      assert HandleInv(s.local, s.log.puts, s.local.handles[h]);
    }

    method FlushSync(h: nat, world: FlushWorld) returns (r: Errno)
      requires Valid() && Flushable(s.local, h) && !c.writeBack
      modifies this
      ensures Valid() && Continues() && In(s.local, h, Ready) && (r == OK <==> world.putOk)
      ensures r == OK ==> TookCharge(old(s.log.flushes), s.log.flushes, old(s.local.handles[h]))
      ensures s.local.handles[h] == old(s.local.handles[h]).(dirty := r == EIO)
    {
      Act(OfHandle(h, StartSync));
      r := SyncUpload(h, world);
    }

    method FlushWriteBack(h: nat, world: FlushWorld) returns (r: Errno)
      requires Valid() && Flushable(s.local, h) && c.writeBack
      modifies this
      ensures Valid() && Continues() && In(s.local, h, Ready)
      ensures var was, x := old(s.local.handles[h]), s.local.handles[h];
        && (r == OK ==> TookCharge(old(s.log.flushes), s.log.flushes, was))
        && if world.renamed then StagedEnd(h, world, was, r)
           else if !world.reopened then r == EIO && Lost(was, x)
           else (r == OK <==> world.putOk) && x == was.(dirty := r == EIO)
    {
      ghost var x := s.local.handles[h];
      Act(OfHandle(h, Rename(world.renamed, world.reopened)));
      if !world.renamed {
        if !world.reopened {
          return EIO;
        }
        r := SyncUpload(h, world);
        return;
      }
      ghost var mid := |events|;
      r := FlushStaged(h, world, x);
      QueuedStays(c, run, events, run, events, old(|events|), mid, h);
    }

    // The rest of Flush, once the temp file is at its staging path.
    method FlushStaged(h: nat, world: FlushWorld, ghost was: Handle) returns (r: Errno)
      requires was.tmp.Opened? && Valid() && Owns(s, h, Renamed, was) && Lost(was, s.local.handles[h])
      modifies this
      ensures Valid() && Continues() && In(s.local, h, Ready) && StagedEnd(h, world, was, r)
    {
      hide Inv, Grows, HandleEnabled, HandleStep, WorkerEnabled, WorkerStep, Owns, Queued, TookCharge, InS3;
      var created := ReplaceTemp(h, world, was);
      if !created {
        return EIO;
      }
      Announce(h, world, was);
      ghost var mid := |events|;
      ghost var before := s.log.flushes;
      var queued := OfferJob(h, world, was);
      ghost var run1, events1 := run, events;
      QueuedStays(c, run, events, run, events, old(|events|), mid, h);
      if queued {
        ChargedSince(old(s.log.flushes), before, s.log.flushes, was);
        return OK;
      }
      ghost var later := s.log.flushes;
      r := SyncUploadFromPath(h, world, was);
      QueuedStays(c, run1, events1, run, events, old(|events|), mid, h);
      if r == OK {
        ChargedSince(old(s.log.flushes), later, s.log.flushes, was);
      }
    }

    method ReplaceTemp(h: nat, world: FlushWorld, ghost was: Handle) returns (created: bool)
      requires was.tmp.Opened? && Valid() && Owns(s, h, Renamed, was) && Lost(was, s.local.handles[h])
      modifies this
      ensures Valid() && Continues() && Quiet(h) && old(s.log.flushes) <= s.log.flushes && created == world.created
      ensures if created then Owns(s, h, Staged, was) && StartsOver(was, s.local.handles[h].(dirty := false))
              else
                && In(s.local, h, Ready) && Lost(was, s.local.handles[h]) && Answers(s.local, was, Rejected)
                && (OnDisk(s.local, was.tmp.id) <==> !world.removed)
    {
      hide Inv, RunsFrom, HandleEnabled, HandleStep, WorkerEnabled, Grows, HandlesHaveFiles;
      OthersRun(world.Before(0), h);
      OwnsSpared(old(s), s, h, Renamed, was);
      FilesThere();
      created := world.created;
      NewTempEffect(c, s, h, created, world.removed, was);
      Act(OfHandle(h, NewTemp(created, world.removed)));
    }

    // Catalog and cache are told, and the handle is clean.
    method Announce(h: nat, world: FlushWorld, ghost was: Handle)
      requires was.tmp.Opened? && Valid() && Owns(s, h, Staged, was)
      requires StartsOver(was, s.local.handles[h].(dirty := false))
      modifies this
      ensures Valid() && Continues() && Quiet(h) && old(s.log.flushes) <= s.log.flushes
      ensures Owns(s, h, Submitting, was) && StartsOver(was, s.local.handles[h])
    {
      OthersRun(world.Before(1), h);
      Act(OfHandle(h, Publish));
    }

    // WriteBackQueue.Submit: the job is queued unless the queue is full at that moment.
    method OfferJob(h: nat, world: FlushWorld, ghost was: Handle) returns (queued: bool)
      requires was.tmp.Opened? && Valid() && Owns(s, h, Submitting, was) && StartsOver(was, s.local.handles[h])
      modifies this
      ensures Valid() && Continues() && old(s.log.flushes) <= s.log.flushes
      ensures queued <==> Queued(c, run, events, old(|events|), h)
      ensures h in s.local.handles && StartsOver(was, s.local.handles[h])
      ensures if queued then
                && In(s.local, h, Ready) && TookCharge(old(s.log.flushes), s.log.flushes, was)
                && Answers(s.local, was, Promised) && OnDisk(s.local, was.tmp.id)
                && Job(was.target, was.tmp.id) in s.pool.submitted
              else Owns(s, h, Fallback, was)
    {
      hide Inv, HandleEnabled, HandleStep, WorkerEnabled, Grows, TookCharge, HandlesHaveFiles;
      OthersRun(world.Before(2), h);
      OwnsSpared(old(s), s, h, Submitting, was);
      FilesThere();
      SubmitEffect(c, s, h, was);
      queued := |s.pool.queue| < c.capacity;
      ghost var before, n := s.log.flushes, |events|;
      Act(OfHandle(h, Submit));
      assert events[n] == OfHandle(h, Submit);
      if queued {
        Charged(old(s.log.flushes), before, s.log.flushes, was);
      }
    }

    // ------------------------------------------------------------ internal/catalog/writeback.go

    method ActW(w: nat, a: WorkerAct)
      requires Valid() && WorkerEnabled(c, s.local, s.pool, w, a)
      modifies this
      ensures Valid() && Continues() && s == WorkerStep(c, old(s), w, a)
      ensures s.pool == PoolStep(c, old(s.local), old(s.pool), w, a)
    {
      Act(OfWorker(w, a));
    }

    ghost predicate BusyWith(w: nat, job: Job, ticket: nat, attempt: nat, draining: bool, stage: Stage)
      reads this
    {
      w < |s.pool.workers| && s.pool.workers[w] == Busy(job, ticket, attempt, draining, stage)
    }

    // The others run for one turn, then worker w does this.
    method TurnOf(w: nat, others: seq<Event>)
      requires Valid() && w < |s.pool.workers| && s.pool.workers[w].Busy?
      modifies this
      ensures Valid() && Continues()
      ensures |s.pool.workers| == |old(s.pool.workers)| && s.pool.workers[w] == old(s.pool.workers[w])
      ensures old(s.pool.stopping) ==> s.pool.stopping
      ensures others == [] ==> s == old(s)
      ensures s.pool.workers[w].ticket < |s.pool.uploads| && s.pool.workers[w].ticket !in s.pool.outcomes
      ensures var b := s.pool.workers[w];
        s.pool.uploads[b.ticket] == if b.stage == Uploaded then b.attempt + 1 else b.attempt
      ensures var b := s.pool.workers[w];
        && b.job.id in s.local.staged && OnDisk(s.local, b.job.id)
        && (b.stage == Uploaded ==> Accepted(s.local.staged, s.log.puts, b.job.id))
    {
      OthersRunW(others, w);
      RunKeepsInv(c, start, run, events, |events|);
      RunHasFiles(c, start, run, events, |events|);
      assert s.pool.workers[w] in s.pool.workers;
      assert WorkerInv(c, s.local.staged, s.log.puts, s.pool, s.pool.workers[w]);
      assert JobInv(s.local.staged, s.pool.workers[w].job);
      assert !IsDelivered(s.pool, s.pool.workers[w].ticket);
    }

    // How process has ended after this many attempts, the last of them with these answers: delivered
    // exactly if S3 took the last one; given up exactly if it was the last allowed; else aborted.
    ghost predicate ProcessEnd(b: Worker, script: seq<Turn>, pos: nat, n: nat)
      requires b.Busy?
      reads this
    {
      && b.ticket in s.pool.outcomes && b.ticket < |s.pool.uploads| && s.pool.uploads[b.ticket] == n
      && var o, last := s.pool.outcomes[b.ticket], n > 0 && UploadTurn(script, pos, n - 1).uploadOk;
      && (o == NoClient <==> n == 0)
      && (o == Delivered <==> last)
      && (o == Exhausted <==> n == c.maxRetries + 1 && !last)
      && (o == Aborted <==> 0 < n <= c.maxRetries && !last)
      && (forall k :: 0 <= k < n - 1 ==> !UploadTurn(script, pos, k).uploadOk)
      && (o == Delivered ==> Accepted(s.local.staged, s.log.puts, b.job.id))
      && (OnDisk(s.local, b.job.id) <==> o != Delivered || !RemoveTurn(script, pos, n - 1).removed)
    }

    // process: the job leaves with its one outcome, and the worker is back in the loop it came from.
    // Once stopCh is closed it may be aborted at a retry, and is if the select picks that.
    method Process(w: nat, script: seq<Turn>, pos: nat) returns (next: nat)
      requires Valid() && w < |s.pool.workers| && s.pool.workers[w].Busy?
      requires s.pool.workers[w].attempt == 0 && s.pool.workers[w].stage == Uploading
      modifies this
      ensures Valid() && Continues() && next >= pos
      ensures |s.pool.workers| == |old(s.pool.workers)| && (old(s.pool.stopping) ==> s.pool.stopping)
      ensures s.pool.workers[w] == if old(s.pool.workers[w].draining) then Draining else Selecting
      ensures var b := old(s.pool.workers[w]);
        && b.ticket < |s.pool.uploads|
        && var n := s.pool.uploads[b.ticket];
        && ProcessEnd(b, script, pos, n) && n <= c.maxRetries + 1
        && (n == 0 <==> b.job.target.bucket !in c.clients)
        && (s.pool.outcomes[b.ticket] == Aborted ==> s.pool.stopping && RetryTurn(script, pos, n).pickStop)
        && (old(s.pool.stopping) ==> forall k :: 0 < k < n ==> !RetryTurn(script, pos, k).pickStop)
      ensures pos >= |script| ==> s.pool.queue == old(s.pool.queue)
    {
      hide RunsFrom, Run, HandleEnabled, HandleStep, Accepted, OnDisk, ProcessEnd, Resolved, WorkerEnabled;
      hide WorkerStep, PoolStep,
           TurnAt, Inv;
      NoMoreTurns(script, pos);
      var b := s.pool.workers[w];
      var job, ticket, draining := b.job, b.ticket, b.draining;
      next := pos;
      var known := FindClient(w, TurnAt(script, next));
      if !known {
        Ended(w, b, script, pos, 0, NoClient);
        return;
      }
      var attempt := 0;
      while true
        invariant Valid() && Continues() && next == pos + 3 * attempt - (if attempt > 0 then 1 else 0)
        invariant attempt <= c.maxRetries
        invariant BusyWith(w, job, ticket, attempt, draining, if attempt == 0 then Uploading else Waiting)
        invariant |s.pool.workers| == |old(s.pool.workers)| && (old(s.pool.stopping) ==> s.pool.stopping)
        invariant pos >= |script| ==> s.pool.queue == old(s.pool.queue)
        invariant forall k :: 0 <= k < attempt ==> !UploadTurn(script, pos, k).uploadOk
        invariant old(s.pool.stopping) ==> forall k :: 0 < k < attempt ==> !RetryTurn(script, pos, k).pickStop
        decreases c.maxRetries - attempt
      {
        var aborted, done := Round(w, attempt, RetryTurn(script, pos, attempt), UploadTurn(script, pos, attempt),
                                   RemoveTurn(script, pos, attempt));
        next := pos + 3 * attempt + (if aborted then 0 else 2);
        if done {
          Ended(w, b, script, pos, if aborted then attempt else attempt + 1,
                if aborted then Aborted else if UploadTurn(script, pos, attempt).uploadOk then Delivered
                else Exhausted);
          return;
        }
        attempt := attempt + 1;
      }
    }

    // One round of the loop in process: before a retry it waits and may be aborted, then it uploads.
    method Round(w: nat, attempt: nat, retry: Turn, up: Turn, rm: Turn) returns (aborted: bool, done: bool)
      requires Valid() && w < |s.pool.workers| && s.pool.workers[w].Busy? && s.pool.workers[w].attempt == attempt
      requires s.pool.workers[w].stage == (if attempt == 0 then Uploading else Waiting) && attempt <= c.maxRetries
      requires s.pool.workers[w].job.target.bucket in c.clients
      modifies this
      ensures Valid() && Continues()
      ensures |s.pool.workers| == |old(s.pool.workers)| && (old(s.pool.stopping) ==> s.pool.stopping)
      ensures retry.others == [] && up.others == [] && rm.others == [] ==> s.pool.queue == old(s.pool.queue)
      ensures if old(s.pool.stopping) then aborted <==> attempt > 0 && retry.pickStop
              else aborted ==> attempt > 0 && retry.pickStop && s.pool.stopping
      ensures done <==> aborted || up.uploadOk || attempt == c.maxRetries
      ensures var b := old(s.pool.workers[w]);
        if aborted then Resolved(w, b.ticket, b.draining, Aborted, attempt) && OnDisk(s.local, b.job.id)
        else if up.uploadOk then
          && Resolved(w, b.ticket, b.draining, Delivered, attempt + 1)
          && Accepted(s.local.staged, s.log.puts, b.job.id) && (OnDisk(s.local, b.job.id) <==> !rm.removed)
        else if done then Resolved(w, b.ticket, b.draining, Exhausted, attempt + 1) && OnDisk(s.local, b.job.id)
        else s.pool.workers[w] == Busy(b.job, b.ticket, attempt + 1, b.draining, Waiting)
    {
      hide RunsFrom, Run, HandleEnabled, HandleStep, Accepted, OnDisk, Resolved, WorkerEnabled, WorkerStep, PoolStep;
      hide Inv;
      if attempt > 0 {
        aborted := AwaitRetry(w, retry);
        if aborted {
          return true, true;
        }
      }
      aborted := false;
      done := Attempt(w, up, rm);
    }

    // Worker w is back in its loop and its job has this outcome, after so many attempts.
    ghost predicate Resolved(w: nat, ticket: nat, draining: bool, o: Outcome, attempts: nat)
      reads this
    {
      && w < |s.pool.workers| && s.pool.workers[w] == (if draining then Draining else Selecting)
      && ticket in s.pool.outcomes && s.pool.outcomes[ticket] == o
      && ticket < |s.pool.uploads| && s.pool.uploads[ticket] == attempts
    }

    lemma Ended(w: nat, b: Worker, script: seq<Turn>, pos: nat, n: nat, o: Outcome)
      requires b.Busy? && Resolved(w, b.ticket, b.draining, o, n) && n <= c.maxRetries + 1
      requires o == NoClient <==> n == 0
      requires o == Delivered <==> n > 0 && UploadTurn(script, pos, n - 1).uploadOk
      requires o == Exhausted ==> n == c.maxRetries + 1
      requires o == Aborted ==> n <= c.maxRetries
      requires forall k :: 0 <= k < n - 1 ==> !UploadTurn(script, pos, k).uploadOk
      requires o == Delivered ==> Accepted(s.local.staged, s.log.puts, b.job.id)
      requires OnDisk(s.local, b.job.id) <==> o != Delivered || !RemoveTurn(script, pos, n - 1).removed
      ensures ProcessEnd(b, script, pos, n) && s.pool.uploads[b.ticket] == n && s.pool.outcomes[b.ticket] == o
      ensures s.pool.workers[w] == if b.draining then Draining else Selecting
    {
    }

    // process looks for the bucket's client first.
    method FindClient(w: nat, turn: Turn) returns (known: bool)
      requires Valid() && w < |s.pool.workers| && s.pool.workers[w].Busy?
      requires s.pool.workers[w].attempt == 0 && s.pool.workers[w].stage == Uploading
      modifies this
      ensures Valid() && Continues()
      ensures |s.pool.workers| == |old(s.pool.workers)| && (old(s.pool.stopping) ==> s.pool.stopping)
      ensures turn.others == [] ==> s.pool.queue == old(s.pool.queue)
      ensures var b := old(s.pool.workers[w]);
        && (known <==> b.job.target.bucket in c.clients)
        && if known then s.pool.workers[w] == b
           else Resolved(w, b.ticket, b.draining, NoClient, 0) && OnDisk(s.local, b.job.id)
    {
      hide RunsFrom, Run, HandleEnabled, HandleStep;
      TurnOf(w, turn.others);
      known := s.pool.workers[w].job.target.bucket in c.clients;
      if !known {
        ActW(w, FindNoClient);
      }
    }

    // The wait before a retry: a select over stopCh and the retry delay.
    method AwaitRetry(w: nat, turn: Turn) returns (aborted: bool)
      requires Valid() && w < |s.pool.workers| && s.pool.workers[w].Busy? && s.pool.workers[w].stage == Waiting
      modifies this
      ensures Valid() && Continues()
      ensures |s.pool.workers| == |old(s.pool.workers)| && (old(s.pool.stopping) ==> s.pool.stopping)
      ensures turn.others == [] ==> s.pool.queue == old(s.pool.queue)
      ensures aborted <==> s.pool.stopping && turn.pickStop
      ensures var b := old(s.pool.workers[w]);
        if aborted then Resolved(w, b.ticket, b.draining, Aborted, b.attempt) && OnDisk(s.local, b.job.id)
        else s.pool.workers[w] == b.(stage := Uploading)
    {
      TurnOf(w, turn.others);
      aborted := s.pool.stopping && turn.pickStop;
      ActW(w, if aborted then Abort else Retry);
    }

    // One upload attempt: open the staging file, PutObject, and on success remove the file.
    method Attempt(w: nat, up: Turn, rm: Turn) returns (done: bool)
      requires Valid() && w < |s.pool.workers| && s.pool.workers[w].Busy? && s.pool.workers[w].stage == Uploading
      requires s.pool.workers[w].job.target.bucket in c.clients && s.pool.workers[w].attempt <= c.maxRetries
      modifies this
      ensures Valid() && Continues()
      ensures |s.pool.workers| == |old(s.pool.workers)| && (old(s.pool.stopping) ==> s.pool.stopping)
      ensures up.others == [] && rm.others == [] ==> s.pool.queue == old(s.pool.queue)
      ensures var b := old(s.pool.workers[w]);
        && (done <==> up.uploadOk || b.attempt == c.maxRetries)
        && if up.uploadOk then
             && Resolved(w, b.ticket, b.draining, Delivered, b.attempt + 1)
             && Accepted(s.local.staged, s.log.puts, b.job.id)
             && (OnDisk(s.local, b.job.id) <==> !rm.removed)
           else if done then Resolved(w, b.ticket, b.draining, Exhausted, b.attempt + 1) && OnDisk(s.local, b.job.id)
           else s.pool.workers[w] == Busy(b.job, b.ticket, b.attempt + 1, b.draining, Waiting)
    {
      hide RunsFrom, Run, HandleEnabled, HandleStep;
      TurnOf(w, up.others);
      var b := s.pool.workers[w];
      ActW(w, Upload(up.uploadOk));
      done := up.uploadOk || b.attempt >= c.maxRetries;
      if up.uploadOk {
        Remove(w, rm);
      }
    }

    method Remove(w: nat, turn: Turn)
      requires Valid() && w < |s.pool.workers| && s.pool.workers[w].Busy? && s.pool.workers[w].stage == Uploaded
      modifies this
      ensures Valid() && Continues()
      ensures |s.pool.workers| == |old(s.pool.workers)| && (old(s.pool.stopping) ==> s.pool.stopping)
      ensures turn.others == [] ==> s.pool.queue == old(s.pool.queue)
      ensures var b := old(s.pool.workers[w]);
        && Resolved(w, b.ticket, b.draining, Delivered, b.attempt + 1) && Accepted(s.local.staged, s.log.puts, b.job.id)
        && (OnDisk(s.local, b.job.id) <==> !turn.removed)
    {
      TurnOf(w, turn.others);
      ActW(w, RemoveStaged(turn.removed));
    }

    // drain: until the queue is seen empty. The others can keep it going only while they run.
    method Drain(w: nat, script: seq<Turn>, pos: nat) returns (next: nat)
      requires Valid() && w < |s.pool.workers| && s.pool.workers[w] == Draining
      modifies this
      ensures Valid() && Continues()
      ensures w < |s.pool.workers| && s.pool.workers[w] == Exited && s.pool.queue == []
    {
      next := pos;
      while true
        invariant Valid() && Continues() && w < |s.pool.workers| && s.pool.workers[w] == Draining
        decreases Left(script, next), |s.pool.queue|
      {
        OthersRunW(TurnAt(script, next).others, w);
        if s.pool.queue == [] {
          ActW(w, FindEmpty);
          return;
        }
        ActW(w, Take);
        next := Process(w, script, next + 1);
      }
    }

    // worker: a select over stopCh and the queue. It returns only through drain; otherwise it is
    // still in its select with nothing to receive when the others have stopped.
    method RunWorker(w: nat, script: seq<Turn>) returns (exited: bool)
      requires Valid() && w < |s.pool.workers| && s.pool.workers[w] == Selecting
      modifies this
      ensures Valid() && Continues() && w < |s.pool.workers|
      ensures s.pool.queue == []
      ensures if exited then s.pool.workers[w] == Exited else s.pool.workers[w] == Selecting && !s.pool.stopping
    {
      var next := 0;
      while true
        invariant Valid() && Continues() && w < |s.pool.workers| && s.pool.workers[w] == Selecting
        decreases Left(script, next), |s.pool.queue|
      {
        var turn := TurnAt(script, next);
        OthersRunW(turn.others, w);
        if s.pool.stopping && (turn.pickStop || s.pool.queue == []) {
          ActW(w, SeeStop);
          next := Drain(w, script, next + 1);
          return true;
        }
        if s.pool.queue != [] {
          ActW(w, Take);
          next := Process(w, script, next + 1);
        } else if next >= |script| {
          return false;
        } else {
          next := next + 1;
        }
      }
    }
  }
}
