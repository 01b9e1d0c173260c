/**
 The write path as a transition system: any number of open handles, the files they buffer
 into and stage, the bounded queue of upload jobs, the upload workers, and the stop channel
 (internal/fuse/handle.go, internal/catalog/writeback.go).

 A state is everything two goroutines can see, plus history. An event is one atomic action of
 one goroutine with the environment's choice in it (does the rename, the create, the PUT
 succeed?). A run is any sequence of enabled events, so every interleaving is a run.
 */
module WriteBack {
  import opened Buffers
  import opened Ids

  // os.CreateTemp never repeats a name: temp files are numbered, and the file staged from
  // number i has the name of number i with ".wb" appended.
  datatype Path = Tmp(id: nat) | Staging(id: nat)

  // A job's FilePath is Staging(id).
  datatype Job = Job(target: ObjKey, id: nat)

  datatype Config = Config(writeBack: bool, capacity: nat, maxRetries: nat, clients: set<string>)

  // h.tmpFile: usable, closed but still set (a failed flush), or removed by Release.
  datatype TmpFile = Opened(id: nat) | Shut(id: nat) | Dropped

  // Where a handle's Flush stands; the handle's mutex is held in every phase but Ready.
  datatype Phase =
    | Ready
    | Renamed              // temp file renamed to its staging path, no replacement yet
    | Staged               // replacement temp file open, catalog and cache not yet told
    | Submitting           // dirty cleared, job not yet offered to the queue
    | Fallback             // queue was full: uploading from the staging path
    | DirectDone(ok: bool) // that PUT is over, the deferred Remove is not
    | Syncing              // syncUpload from the temp file

  datatype Handle = Handle(
    target: ObjKey,
    tmp: TmpFile,
    dirty: bool,
    phase: Phase,
    staging: nat,
    writes: seq<Write>)    // history: the writes made to the current temp file, failed ones as far as they got

  datatype Stage = Uploading | Waiting | Uploaded

  datatype Worker =
    | Selecting
    | Draining
    | Busy(job: Job, ticket: nat, attempt: nat, draining: bool, stage: Stage)
    | Exited

  // syncUploadFromPath: the staging file does not open, or the PUT fails, or S3 takes it.
  datatype Direct = CannotOpen | PutFailed | PutAccepted

  datatype Outcome = Delivered | NoClient | Aborted | Exhausted

  // History of a staging path: what was staged there, and what its Flush told the caller.
  datatype Status = InFlight | Promised | Rejected
  datatype StagedFile = StagedFile(target: ObjKey, writes: seq<Write>, status: Status)

  // A PutObject that S3 accepted: the body is what the file held at that moment, the writes
  // are the history of the handle the file came from.
  datatype Put = Put(target: ObjKey, path: Path, body: Bytes, writes: seq<Write>)

  // A staging file removed when S3 had accepted the first `after` PUTs.
  datatype Removal = Removal(id: nat, after: nat)

  // A Flush of a dirty handle that returned 0.
  datatype Flush = Flush(target: ObjKey, path: Path, writes: seq<Write>)

  // The open-file side: files on disk, handles, and what each staging path was made from.
  datatype Local = Local(
    files: map<Path, Bytes>,
    handles: map<nat, Handle>,
    nextId: nat,
    staged: map<nat, StagedFile>)

  // The queue side. A job's ticket is its index among the submitted jobs.
  datatype Pool = Pool(
    queue: seq<Job>,
    workers: seq<Worker>,
    stopping: bool,
    submitted: seq<Job>,
    taken: nat,                  // tickets below this have been received by a worker
    uploads: seq<nat>,           // PutObject attempts made, per ticket
    outcomes: map<nat, Outcome>,
    delivered: seq<nat>,         // tickets in the order S3 accepted them
    lateSubmit: bool)            // a job was queued after stopCh was closed

  datatype Log = Log(puts: seq<Put>, removals: seq<Removal>, flushes: seq<Flush>)

  datatype State = State(local: Local, pool: Pool, log: Log)

  // handle.go, with what the operating system and S3 answer
  datatype HandleAct =
    | Open(target: ObjKey, created: bool)
    | WriteData(data: Write, ok: bool)     // what was written of it, which is all if ok
    | Rename(ok: bool, reopened: bool)
    | StartSync
    | NewTemp(ok: bool, removed: bool)
    | Publish
    | Submit
    | DirectPut(r: Direct)
    | DirectRemove(removed: bool)
    | SyncPut(ok: bool)
    | Release

  // writeback.go
  datatype WorkerAct =
    | Take
    | SeeStop
    | FindEmpty
    | FindNoClient
    | Upload(ok: bool)
    | Retry
    | Abort
    | RemoveStaged(removed: bool)

  datatype Event = OfHandle(h: nat, act: HandleAct) | OfWorker(w: nat, job: WorkerAct) | Stop

  // ---------------------------------------------------------------- one handle

  predicate In(l: Local, h: nat, p: Phase) {
    h in l.handles && l.handles[h].phase == p
  }

  // Ready for a flush: dirty, and the temp file has not been lost to an earlier failure.
  predicate Flushable(l: Local, h: nat) {
    In(l, h, Ready) && l.handles[h].dirty && l.handles[h].tmp.Opened? && Tmp(l.handles[h].tmp.id) in l.files
  }

  predicate InStaging(p: Phase) {
    p != Ready && p != Syncing
  }

  predicate StagedBy(l: Local, h: nat) {
    h in l.handles && InStaging(l.handles[h].phase) && l.handles[h].staging in l.staged
  }

  function SetPhase(l: Local, h: nat, p: Phase): Local
    requires h in l.handles
  {
    l.(handles := l.handles[h := l.handles[h].(phase := p)])
  }

  function SetStatus(l: Local, i: nat, st: Status): Local
    requires i in l.staged
  {
    l.(staged := l.staged[i := l.staged[i].(status := st)])
  }

  function DoOpen(l: Local, h: nat, target: ObjKey, created: bool): Local {
    Local(l.files[Tmp(l.nextId) := []],
          l.handles[h := Handle(target, Opened(l.nextId), created, Ready, 0, [])],
          l.nextId + 1, l.staged)
  }

  function DoWrite(l: Local, h: nat, data: Write, ok: bool): Local
    requires h in l.handles && l.handles[h].tmp.Opened? && Tmp(l.handles[h].tmp.id) in l.files
  {
    var x := l.handles[h];
    l.(files := l.files[Tmp(x.tmp.id) := WriteAt(l.files[Tmp(x.tmp.id)], data)],
       handles := l.handles[h := x.(dirty := x.dirty || ok, writes := x.writes + [data])])
  }

  function DoRename(l: Local, h: nat): Local
    requires Flushable(l, h)
  {
    var x := l.handles[h];
    var i := x.tmp.id;
    Local((l.files - {Tmp(i)})[Staging(i) := l.files[Tmp(i)]],
          l.handles[h := x.(tmp := Shut(i), phase := Renamed, staging := i)],
          l.nextId,
          l.staged[i := StagedFile(x.target, x.writes, InFlight)])
  }

  // The rename failed; the temp file is reopened for syncUpload, or lost to the handle (EIO).
  function DoRenameFailed(l: Local, h: nat, reopened: bool): Local
    requires Flushable(l, h)
  {
    if reopened then SetPhase(l, h, Syncing)
    else l.(handles := l.handles[h := l.handles[h].(tmp := Shut(l.handles[h].tmp.id))])
  }

  function DoNewTemp(l: Local, h: nat): Local
    requires h in l.handles
  {
    var x := l.handles[h];
    l.(files := l.files[Tmp(l.nextId) := []],
       handles := l.handles[h := x.(tmp := Opened(l.nextId), phase := Staged, writes := [])],
       nextId := l.nextId + 1)
  }

  function DoPublish(l: Local, h: nat): Local
    requires h in l.handles
  {
    l.(handles := l.handles[h := l.handles[h].(dirty := false, phase := Submitting)])
  }

  // The Flush returns; its staging file is from now on promised to the caller, or disowned.
  function DoAnswer(l: Local, h: nat, st: Status): Local
    requires StagedBy(l, h)
  {
    SetStatus(SetPhase(l, h, Ready), l.handles[h].staging, st)
  }

  // os.Remove of a staging file. A failure is ignored and the file stays.
  function DropFile(l: Local, i: nat, removed: bool): Local {
    if removed then l.(files := l.files - {Staging(i)}) else l
  }

  function DropLog(l: Local, g: Log, i: nat, removed: bool): Log {
    if removed && Staging(i) in l.files then g.(removals := g.removals + [Removal(i, |g.puts|)]) else g
  }

  function DoSynced(l: Local, h: nat): Local
    requires h in l.handles
  {
    l.(handles := l.handles[h := l.handles[h].(dirty := false, phase := Ready)])
  }

  function DoRelease(l: Local, h: nat): Local
    requires h in l.handles
  {
    var x := l.handles[h];
    l.(files := if x.tmp == Dropped then l.files else l.files - {Tmp(x.tmp.id)},
       handles := l.handles[h := x.(tmp := Dropped)])
  }

  // ---------------------------------------------------------------- the queue and one worker

  predicate BusyAt(q: Pool, w: nat, stage: Stage) {
    w < |q.workers| && q.workers[w].Busy? && q.workers[w].stage == stage && q.workers[w].ticket < |q.uploads|
  }

  function DoEnqueue(q: Pool, j: Job): Pool {
    q.(queue := q.queue + [j], submitted := q.submitted + [j], uploads := q.uploads + [0],
       lateSubmit := q.lateSubmit || q.stopping)
  }

  predicate CanTake(q: Pool, w: nat) {
    w < |q.workers| && (q.workers[w] == Selecting || q.workers[w] == Draining) && q.queue != []
  }

  function DoTake(q: Pool, w: nat): Pool
    requires CanTake(q, w)
  {
    q.(queue := q.queue[1..], taken := q.taken + 1,
       workers := q.workers[w := Busy(q.queue[0], q.taken, 0, q.workers[w] == Draining, Uploading)])
  }

  function SetWorker(q: Pool, w: nat, x: Worker): Pool
    requires w < |q.workers|
  {
    q.(workers := q.workers[w := x])
  }

  // process returns to the loop that called it.
  function DoResolve(q: Pool, w: nat, o: Outcome): Pool
    requires w < |q.workers| && q.workers[w].Busy?
  {
    var b := q.workers[w];
    q.(workers := q.workers[w := if b.draining then Draining else Selecting], outcomes := q.outcomes[b.ticket := o])
  }

  function CountUpload(q: Pool, t: nat): Pool
    requires t < |q.uploads|
  {
    q.(uploads := q.uploads[t := q.uploads[t] + 1])
  }

  function DoUploaded(q: Pool, w: nat): Pool
    requires BusyAt(q, w, Uploading)
  {
    var b := q.workers[w];
    SetWorker(CountUpload(q, b.ticket), w, b.(stage := Uploaded)).(delivered := q.delivered + [b.ticket])
  }

  function DoUploadFailed(c: Config, q: Pool, w: nat): Pool
    requires BusyAt(q, w, Uploading)
  {
    var b := q.workers[w];
    if b.attempt < c.maxRetries then
      SetWorker(CountUpload(q, b.ticket), w, b.(attempt := b.attempt + 1, stage := Waiting))
    else DoResolve(CountUpload(q, b.ticket), w, Exhausted)
  }

  // ---------------------------------------------------------------- the system

  function Init(workers: nat): State {
    State(Local(map[], map[], 0, map[]),
          Pool([], seq(workers, _ => Selecting), false, [], 0, [], map[], [], false),
          Log([], [], []))
  }

  predicate HandleEnabled(c: Config, l: Local, h: nat, a: HandleAct) {
    match a
    case Open(_, _) => h !in l.handles
    case WriteData(_, _) => In(l, h, Ready) && l.handles[h].tmp.Opened? && Tmp(l.handles[h].tmp.id) in l.files
    case Rename(_, _) => c.writeBack && Flushable(l, h)
    case StartSync => !c.writeBack && Flushable(l, h)
    case NewTemp(_, _) => In(l, h, Renamed) && StagedBy(l, h)
    case Publish => In(l, h, Staged)
    case Submit => In(l, h, Submitting) && StagedBy(l, h)
    case DirectPut(r) =>
      In(l, h, Fallback) && StagedBy(l, h) && (r == PutAccepted ==> Staging(l.handles[h].staging) in l.files)
    case DirectRemove(_) => h in l.handles && l.handles[h].phase.DirectDone? && StagedBy(l, h)
    case SyncPut(_) => In(l, h, Syncing) && l.handles[h].tmp.Opened? && Tmp(l.handles[h].tmp.id) in l.files
    case Release => In(l, h, Ready)
  }

  predicate WorkerEnabled(c: Config, l: Local, q: Pool, w: nat, a: WorkerAct) {
    match a
    case Take => CanTake(q, w)
    case SeeStop => w < |q.workers| && q.workers[w] == Selecting && q.stopping
    case FindEmpty => w < |q.workers| && q.workers[w] == Draining && q.queue == []
    case FindNoClient =>
      BusyAt(q, w, Uploading) && q.workers[w].attempt == 0 && q.workers[w].job.target.bucket !in c.clients
    case Upload(ok) =>
      && BusyAt(q, w, Uploading) && q.workers[w].job.target.bucket in c.clients
      && (ok ==> Staging(q.workers[w].job.id) in l.files && q.workers[w].job.id in l.staged)
    case Retry => BusyAt(q, w, Waiting)
    case Abort => BusyAt(q, w, Waiting) && q.stopping
    case RemoveStaged(_) => BusyAt(q, w, Uploaded)
  }

  predicate Enabled(c: Config, s: State, e: Event) {
    match e
    case OfHandle(h, a) => HandleEnabled(c, s.local, h, a)
    case OfWorker(w, a) => WorkerEnabled(c, s.local, s.pool, w, a)
    case Stop => !s.pool.stopping
  }

  // The Flush returns 0.
  function Answered(s: State, h: nat, l': Local, q': Pool, g: Log): State
    requires StagedBy(s.local, h)
  {
    var x := s.local.handles[h];
    State(l', q', g.(flushes := g.flushes + [Flush(x.target, Staging(x.staging), s.local.staged[x.staging].writes)]))
  }

  // The Flush returns EIO and gives its staging file up.
  function Refused(s: State, h: nat, removed: bool): State
    requires StagedBy(s.local, h)
  {
    var i := s.local.handles[h].staging;
    State(DoAnswer(DropFile(s.local, i, removed), h, Rejected), s.pool, DropLog(s.local, s.log, i, removed))
  }

  function HandleStep(c: Config, s: State, h: nat, a: HandleAct): State
    requires HandleEnabled(c, s.local, h, a)
  {
    var l, q, g := s.local, s.pool, s.log;
    match a
    case Open(target, created) => s.(local := DoOpen(l, h, target, created))
    case WriteData(data, ok) => s.(local := DoWrite(l, h, data, ok))
    case Rename(ok, reopened) => s.(local := if ok then DoRename(l, h) else DoRenameFailed(l, h, reopened))
    case StartSync => s.(local := SetPhase(l, h, Syncing))
    case NewTemp(ok, removed) => if ok then s.(local := DoNewTemp(l, h)) else Refused(s, h, removed)
    case Publish => s.(local := DoPublish(l, h))
    case Submit =>
      if |q.queue| < c.capacity then
        Answered(s, h, DoAnswer(l, h, Promised), DoEnqueue(q, Job(l.handles[h].target, l.handles[h].staging)), g)
      else s.(local := SetPhase(l, h, Fallback))
    case DirectPut(r) =>
      var x := l.handles[h];
      if r == CannotOpen then Refused(s, h, false)
      else if r == PutFailed then s.(local := SetPhase(l, h, DirectDone(false)))
      else State(SetPhase(l, h, DirectDone(true)), q, g.(puts := g.puts + [PutStaged(l, x.target, x.staging)]))
    case DirectRemove(removed) =>
      var x := l.handles[h];
      if x.phase.ok then
        Answered(s, h, DoAnswer(DropFile(l, x.staging, removed), h, Promised), q, DropLog(l, g, x.staging, removed))
      else Refused(s, h, removed)
    case SyncPut(ok) =>
      var x := l.handles[h];
      var p := Tmp(x.tmp.id);
      if ok then State(DoSynced(l, h), q, g.(puts := g.puts + [Put(x.target, p, l.files[p], x.writes)],
                                             flushes := g.flushes + [Flush(x.target, p, x.writes)]))
      else s.(local := SetPhase(l, h, Ready))
    case Release => s.(local := DoRelease(l, h))
  }

  // What a worker's action does to the queue side alone.
  function PoolStep(c: Config, l: Local, q: Pool, w: nat, a: WorkerAct): Pool
    requires WorkerEnabled(c, l, q, w, a)
  {
    match a
    case Take => DoTake(q, w)
    case SeeStop => SetWorker(q, w, Draining)
    case FindEmpty => SetWorker(q, w, Exited)
    case FindNoClient => DoResolve(q, w, NoClient)
    case Upload(ok) => if ok then DoUploaded(q, w) else DoUploadFailed(c, q, w)
    case Retry => SetWorker(q, w, q.workers[w].(stage := Uploading))
    case Abort => DoResolve(q, w, Aborted)
    case RemoveStaged(_) => DoResolve(q, w, Delivered)
  }

  function WorkerStep(c: Config, s: State, w: nat, a: WorkerAct): State
    requires WorkerEnabled(c, s.local, s.pool, w, a)
  {
    var l, g, q' := s.local, s.log, PoolStep(c, s.local, s.pool, w, a);
    if a.Upload? && a.ok then
      var j := s.pool.workers[w].job;
      State(l, q', g.(puts := g.puts + [PutStaged(l, j.target, j.id)]))
    else if a.RemoveStaged? then
      var i := s.pool.workers[w].job.id;
      State(DropFile(l, i, a.removed), q', DropLog(l, g, i, a.removed))
    else s.(pool := q')
  }

  function Step(c: Config, s: State, e: Event): State
    requires Enabled(c, s, e)
  {
    match e
    case OfHandle(h, a) => HandleStep(c, s, h, a)
    case OfWorker(w, a) => WorkerStep(c, s, w, a)
    case Stop => s.(pool := s.pool.(stopping := true))
  }

  // PutObject of a staging file: the body is whatever the file holds.
  function PutStaged(l: Local, target: ObjKey, i: nat): Put
    requires Staging(i) in l.files && i in l.staged
  {
    Put(target, Staging(i), l.files[Staging(i)], l.staged[i].writes)
  }

  // ---------------------------------------------------------------- what every step keeps

  // The one PUT that delivers staging file i: under its handle's key, the overlay of its handle's writes.
  function PutOf(st: map<nat, StagedFile>, i: nat): Put
    requires i in st
  {
    Put(st[i].target, Staging(i), Replay(st[i].writes), st[i].writes)
  }

  // S3 has taken what was staged as i.
  predicate Accepted(st: map<nat, StagedFile>, puts: seq<Put>, i: nat) {
    i in st && PutOf(st, i) in puts
  }

  predicate FileInv(l: Local, p: Path)
    requires p in l.files
  {
    && p.id < l.nextId
    && (p.Tmp? ==> p.id !in l.staged)
    && (p.Staging? ==> p.id in l.staged && l.files[p] == Replay(l.staged[p.id].writes))
  }

  predicate StagedInv(l: Local, puts: seq<Put>, i: nat)
    requires i in l.staged
  {
    i < l.nextId && (l.staged[i].status == Rejected || Staging(i) in l.files || Accepted(l.staged, puts, i))
  }

  // A staging file is never written: it holds what its handle had written. Until its Flush
  // has been refused it is on disk, or S3 has taken it.
  predicate FilesInv(l: Local, puts: seq<Put>) {
    && (forall p <- l.files :: FileInv(l, p))
    && (forall i <- l.staged :: StagedInv(l, puts, i))
  }

  predicate HandleInv(l: Local, puts: seq<Put>, x: Handle) {
    && (x.tmp != Dropped ==> x.tmp.id < l.nextId)
    && (x.tmp.Opened? ==> Tmp(x.tmp.id) in l.files && l.files[Tmp(x.tmp.id)] == Replay(x.writes))
    && (x.phase == Renamed ==> x.tmp == Shut(x.staging))
    && (x.phase != Ready && x.phase != Renamed ==> x.tmp.Opened?)
    && (InStaging(x.phase) ==>
          && x.staging in l.staged
          && l.staged[x.staging].status == InFlight
          && l.staged[x.staging].target == x.target)
    && (x.phase == DirectDone(true) ==> Accepted(l.staged, puts, x.staging))
  }

  // Two handles never share a temp file or a staging file.
  predicate Apart(x: Handle, y: Handle) {
    && (x.tmp != Dropped && y.tmp != Dropped ==> x.tmp.id != y.tmp.id)
    && (InStaging(x.phase) && InStaging(y.phase) ==> x.staging != y.staging)
  }

  predicate HandlesInv(l: Local, puts: seq<Put>) {
    && (forall h <- l.handles :: HandleInv(l, puts, l.handles[h]))
    && (forall h, k :: h in l.handles && k in l.handles && h != k ==> Apart(l.handles[h], l.handles[k]))
  }

  predicate JobInv(st: map<nat, StagedFile>, j: Job) {
    j.id in st && st[j.id].status == Promised && st[j.id].target == j.target
  }

  // Submitted jobs are the received ones followed by the queued ones, each for its own staging file.
  predicate JobsInv(c: Config, st: map<nat, StagedFile>, q: Pool) {
    && q.taken <= |q.submitted|
    && q.queue == q.submitted[q.taken..]
    && |q.queue| <= c.capacity
    && |q.uploads| == |q.submitted|
    && (forall j <- q.submitted :: JobInv(st, j))
    && (forall t, u :: 0 <= t < u < |q.submitted| ==> q.submitted[t].id != q.submitted[u].id)
    && (forall t :: q.taken <= t < |q.uploads| ==> q.uploads[t] == 0)
    && (forall t :: 0 <= t < |q.uploads| ==> q.uploads[t] <= c.maxRetries + 1)
  }

  predicate WorkerInv(c: Config, st: map<nat, StagedFile>, puts: seq<Put>, q: Pool, b: Worker) {
    b.Busy? ==>
      && b.ticket < q.taken <= |q.submitted| == |q.uploads|
      && b.job == q.submitted[b.ticket]
      && b.ticket !in q.outcomes
      && b.attempt <= c.maxRetries
      && q.uploads[b.ticket] == (if b.stage == Uploaded then b.attempt + 1 else b.attempt)
      && (b.attempt > 0 || b.stage != Uploading ==> b.job.target.bucket in c.clients)
      && (b.stage == Uploaded ==> Accepted(st, puts, b.job.id))
  }

  predicate Holds(b: Worker, t: nat) {
    b.Busy? && b.ticket == t
  }

  predicate Held(workers: seq<Worker>, t: nat) {
    exists b <- workers :: Holds(b, t)
  }

  // A received job is in the hands of exactly one worker, or has its one outcome.
  predicate WorkersInv(c: Config, st: map<nat, StagedFile>, puts: seq<Put>, q: Pool) {
    && (forall b <- q.workers :: WorkerInv(c, st, puts, q, b))
    && (forall w, v :: 0 <= w < v < |q.workers| && q.workers[w].Busy? ==> !Holds(q.workers[v], q.workers[w].ticket))
    && (forall t :: 0 <= t < q.taken && t !in q.outcomes ==> Held(q.workers, t))
    && (forall t <- q.outcomes ::
          t < q.taken <= |q.submitted| && (q.outcomes[t] == Delivered ==> Accepted(st, puts, q.submitted[t].id)))
  }

  // A worker drains only after stopCh is closed, and leaves only when it has seen the queue empty.
  predicate StopInv(q: Pool) {
    forall b <- q.workers ::
      && (b.Draining? || (b.Busy? && b.draining) ==> q.stopping)
      && (b.Exited? ==> q.stopping && (q.lateSubmit || q.queue == []))
  }

  predicate PutInv(st: map<nat, StagedFile>, p: Put) {
    && p.body == Replay(p.writes)
    && (p.path.Staging? ==> p.path.id in st && p == PutOf(st, p.path.id))
  }

  predicate RemovalInv(st: map<nat, StagedFile>, puts: seq<Put>, r: Removal) {
    r.id in st && r.after <= |puts| && (st[r.id].status == Rejected || Accepted(st, puts[..r.after], r.id))
  }

  predicate FlushInv(st: map<nat, StagedFile>, puts: seq<Put>, f: Flush) {
    if f.path.Staging? then f.path.id in st && st[f.path.id] == StagedFile(f.target, f.writes, Promised)
    else Put(f.target, f.path, Replay(f.writes), f.writes) in puts
  }

  predicate HistoryInv(st: map<nat, StagedFile>, g: Log) {
    && (forall p <- g.puts :: PutInv(st, p))
    && (forall r <- g.removals :: RemovalInv(st, g.puts, r))
    && (forall f <- g.flushes :: FlushInv(st, g.puts, f))
  }

  predicate Inv(c: Config, s: State) {
    && FilesInv(s.local, s.log.puts)
    && HandlesInv(s.local, s.log.puts)
    && JobsInv(c, s.local.staged, s.pool)
    && WorkersInv(c, s.local.staged, s.log.puts, s.pool)
    && StopInv(s.pool)
    && HistoryInv(s.local.staged, s.log)
  }
}
