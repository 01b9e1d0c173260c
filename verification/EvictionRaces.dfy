/**
 The disk cache's files and metadata rows while several calls are at work (internal/cache/manager.go,
 evictor.go): Put and Invalidate hold the manager's lock between their two steps, evictOnce holds
 none, and several runs of it may be under way. Every step works; what goes wrong comes from the
 interleaving alone.
 */
module EvictionRaces {
  import opened Ids

  type Sizes = map<ObjKey, nat>   // sizes

  datatype Lock = Free | Putting(id: ObjKey, size: nat) | Dropping(id: ObjKey)

  datatype Due = Due(id: ObjKey, size: nat)

  // evictOnce: the total is read first, then the list; its head is what is tried next.
  datatype Evicting = Sized(total: int) | Working(todo: seq<Due>, total: int, unlinked: bool)

  datatype State = State(files: set<ObjKey>, rows: Sizes, lock: Lock, runs: map<nat, Evicting>)

  datatype Step =
    | PutFile(id: ObjKey, size: nat)        // Manager.Put: the lock and the rename
    | PutRow(id: ObjKey, size: nat)         // the row, and the lock is given back
    | DropFile(id: ObjKey)                  // Manager.Invalidate
    | DropRow(id: ObjKey)
    | Heal(id: ObjKey)                      // Manager.Get drops a row without a file
    | ReadTotal(r: nat)                     // evictOnce
    | ReadList(r: nat, todo: seq<Due>)
    | Unlink(r: nat, id: ObjKey)            // a file that is not there is passed over
    | DropEvicted(r: nat, id: ObjKey)

  ghost function Total(rows: Sizes): nat {
    if rows == map[] then 0
    else
      var id :| id in rows;
      rows[id] + Total(rows - {id})
  }

  predicate AtHead(s: State, r: nat, id: ObjKey) {
    r in s.runs && s.runs[r].Working? && s.runs[r].todo != [] && s.runs[r].todo[0].id == id
  }

  // The run has unlinked the file and not yet deleted the row.
  predicate Between(s: State, r: nat, id: ObjKey) {
    AtHead(s, r, id) && s.runs[r].unlinked
  }

  predicate Enabled(maxSize: nat, s: State, e: Step) {
    match e
    case PutFile(_, _) => s.lock == Free
    case PutRow(id, size) => s.lock == Putting(id, size)
    case DropFile(_) => s.lock == Free
    case DropRow(id) => s.lock == Dropping(id)
    case Heal(id) => s.lock == Free && id in s.rows && id !in s.files
    case ReadTotal(r) => r !in s.runs
    case ReadList(r, todo) =>
      && r in s.runs && s.runs[r].Sized? && s.runs[r].total > maxSize * 9 / 10
      && |todo| <= 100 && forall i :: 0 <= i < |todo| ==> todo[i].id in s.rows && s.rows[todo[i].id] == todo[i].size
    case Unlink(r, id) => AtHead(s, r, id) && !s.runs[r].unlinked && s.runs[r].total > maxSize * 8 / 10
    case DropEvicted(r, id) => Between(s, r, id)
  }

  ghost function Next(maxSize: nat, s: State, e: Step): State
    requires Enabled(maxSize, s, e)
  {
    match e
    case PutFile(id, size) => s.(files := s.files + {id}, lock := Putting(id, size))
    case PutRow(id, size) => s.(rows := s.rows[id := size], lock := Free)
    case DropFile(id) => s.(files := s.files - {id}, lock := Dropping(id))
    case DropRow(id) => s.(rows := s.rows - {id}, lock := Free)
    case Heal(id) => s.(rows := s.rows - {id})
    case ReadTotal(r) => s.(runs := s.runs[r := Sized(Total(s.rows))])
    case ReadList(r, todo) => s.(runs := s.runs[r := Working(todo, s.runs[r].total, false)])
    case Unlink(r, id) =>
      var x := s.runs[r];
      if id in s.files then s.(files := s.files - {id}, runs := s.runs[r := x.(unlinked := true)])
      else s.(runs := s.runs[r := x.(todo := x.todo[1..])])
    case DropEvicted(r, id) =>
      var x := s.runs[r];
      s.(rows := s.rows - {id}, runs := s.runs[r := Working(x.todo[1..], x.total - x.todo[0].size, false)])
  }

  // In the beginning files and rows agree and nothing is under way.
  ghost predicate Run(maxSize: nat, ss: seq<State>, es: seq<Step>) {
    && |ss| == |es| + 1
    && ss[0].files == ss[0].rows.Keys && ss[0].lock == Free && ss[0].runs == map[]
    && forall i :: 0 <= i < |es| ==> Enabled(maxSize, ss[i], es[i]) && ss[i + 1] == Next(maxSize, ss[i], es[i])
  }

  // ---------------------------------------------------------------- what goes wrong, and exactly when

  predicate TakesFile(e: Step, id: ObjKey) {
    (e.DropFile? || e.Unlink?) && e.id == id
  }

  predicate TakesRow(e: Step, id: ObjKey) {
    (e.DropRow? || e.Heal? || e.DropEvicted?) && e.id == id
  }

  predicate Renames(e: Step, id: ObjKey) {
    e.PutFile? && e.id == id
  }

  // The last Put of the key before k: rename at p, row at q.
  predicate LastPut(es: seq<Step>, id: ObjKey, p: nat, q: nat, k: nat)
    requires k <= |es|
  {
    p < q < k && Renames(es[p], id) && es[q] == PutRow(id, es[p].size) && forall i :: p < i < k ==> !Renames(es[i], id)
  }

  // One run's two steps for the key: unlink at u, row at e.
  predicate Eviction(ss: seq<State>, es: seq<Step>, id: ObjKey, u: nat, e: nat)
    requires |ss| == |es| + 1
  {
    && u < e < |es| && es[u].Unlink? && es[u].id == id && id in ss[u].files && es[e] == DropEvicted(es[u].r, id)
    && forall i :: u < i < e ==> es[i] != es[e]
  }

  predicate Unlocked(s: State, id: ObjKey) {
    s.lock == Free || s.lock.id != id
  }

  // Both steps of the last Put fell between an eviction's two, and nobody has touched the file since.
  ghost predicate PutInsideEviction(ss: seq<State>, es: seq<Step>, id: ObjKey, k: nat)
    requires |ss| == |es| + 1 && k <= |es|
  {
    exists p: nat, q: nat, u: nat, e: nat ::
      && LastPut(es, id, p, q, k) && Eviction(ss, es, id, u, e) && u < p && q < e < k
      && forall i :: p < i < k ==> !TakesFile(es[i], id)
  }

  // Both steps of an eviction fell between the last Put's two, and nobody has touched the row since.
  ghost predicate EvictionInsidePut(ss: seq<State>, es: seq<Step>, id: ObjKey, k: nat)
    requires |ss| == |es| + 1 && k <= |es|
  {
    exists p: nat, q: nat, u: nat, e: nat ::
      && LastPut(es, id, p, q, k) && Eviction(ss, es, id, u, e) && p < u && e < q
      && forall i :: q < i < k ==> !TakesRow(es[i], id)
  }

  // While no Put or Invalidate of the key is under way, its file is there without a row exactly if
  // the Put that made it fell between an eviction's unlink and that eviction's row delete.
  lemma FileWithoutRow(maxSize: nat, ss: seq<State>, es: seq<Step>, id: ObjKey, k: nat)
    requires Run(maxSize, ss, es) && k < |ss| && Unlocked(ss[k], id)
    ensures id in ss[k].files && id !in ss[k].rows <==> PutInsideEviction(ss, es, id, k)
  {
    if id in ss[k].files && id !in ss[k].rows {
      LostRow(maxSize, ss, es, id, k);
    }
    if PutInsideEviction(ss, es, id, k) {
      var p: nat, q: nat, u: nat, e: nat :|
        && LastPut(es, id, p, q, k) && Eviction(ss, es, id, u, e) && u < p && q < e < k
        && forall i :: p < i < k ==> !TakesFile(es[i], id);
      Orphaned(maxSize, ss, es, id, p, q, e, k);
    }
  }

  // And while no eviction of it is under way either, its row is there without a file exactly if an
  // eviction fell between that Put's rename and its row.
  lemma RowWithoutFile(maxSize: nat, ss: seq<State>, es: seq<Step>, id: ObjKey, k: nat)
    requires Run(maxSize, ss, es) && k < |ss| && Unlocked(ss[k], id) && forall r :: !Between(ss[k], r, id)
    ensures id in ss[k].rows && id !in ss[k].files <==> EvictionInsidePut(ss, es, id, k)
  {
    if id in ss[k].rows && id !in ss[k].files {
      LostFile(maxSize, ss, es, id, k);
    }
    if EvictionInsidePut(ss, es, id, k) {
      var p: nat, q: nat, u: nat, e: nat :|
        && LastPut(es, id, p, q, k) && Eviction(ss, es, id, u, e) && p < u && e < q
        && forall i :: q < i < k ==> !TakesRow(es[i], id);
      Dangling(maxSize, ss, es, id, p, q, u, k);
    }
  }

  // ---------------------------------------------------------------- one direction: how it came about

  lemma LostRow(maxSize: nat, ss: seq<State>, es: seq<Step>, id: ObjKey, k: nat)
    requires Run(maxSize, ss, es) && k < |ss| && Unlocked(ss[k], id) && id in ss[k].files && id !in ss[k].rows
    ensures PutInsideEviction(ss, es, id, k)
  {
    hide Next, Enabled;
    var p := FileSince(maxSize, ss, es, id, k);
    if p < 0 {
      var e := RowLost(maxSize, ss, es, id, 0, k);
      var u := EvictedRow(maxSize, ss, es, id, 0, e);
    } else {
      var q := PutCompletes(maxSize, ss, es, id, p, k);
      var e := RowLost(maxSize, ss, es, id, q + 1, k);
      var u := EvictedRow(maxSize, ss, es, id, q + 1, e);
      assert TakesFile(es[u], id);
      assert LastPut(es, id, p, q, k) && Eviction(ss, es, id, u, e) && u < p && q < e < k;
    }
  }

  lemma LostFile(maxSize: nat, ss: seq<State>, es: seq<Step>, id: ObjKey, k: nat)
    requires Run(maxSize, ss, es) && k < |ss| && Unlocked(ss[k], id) && forall r :: !Between(ss[k], r, id)
    requires id in ss[k].rows && id !in ss[k].files
    ensures EvictionInsidePut(ss, es, id, k)
  {
    hide Next;
    var q := RowSince(maxSize, ss, es, id, k);
    if q < 0 {
      var u := FileLost(maxSize, ss, es, id, 0, k);
      var _ := TakeEnds(maxSize, ss, es, id, u, k);
    } else {
      var p := LockTaken(maxSize, ss, es, q);
      PutIsLast(maxSize, ss, es, id, p, q, k);
      PutLeaves(maxSize, ss[p], es[p]);
      var u := FileLost(maxSize, ss, es, id, p + 1, k);
      var e := TakeEnds(maxSize, ss, es, id, u, k);
      assert TakesRow(es[e], id) && e < q;
      assert LastPut(es, id, p, q, k) && Eviction(ss, es, id, u, e) && p < u && e < q;
    }
  }

  lemma PutLeaves(maxSize: nat, s: State, e: Step)
    requires Enabled(maxSize, s, e)
    ensures e.PutFile? ==> e.id in Next(maxSize, s, e).files
    ensures e.PutRow? ==> e.id in Next(maxSize, s, e).rows && Next(maxSize, s, e).lock == Free
  {
  }

  // Whoever deleted the row of a file that has been there all the time is an eviction that unlinked
  // an earlier file.
  lemma EvictedRow(maxSize: nat, ss: seq<State>, es: seq<Step>, id: ObjKey, i: nat, e: nat) returns (u: nat)
    requires Run(maxSize, ss, es) && i <= e < |es| && TakesRow(es[e], id) && ss[i].lock == Free
    requires forall m :: i <= m <= e ==> id in ss[m].files
    requires forall m :: i <= m < e ==> !TakesFile(es[m], id)
    ensures Eviction(ss, es, id, u, e) && u < i
  {
    hide Next;
    if es[e].DropEvicted? {
      u := UnlinkedSince(maxSize, ss, es, es[e].r, id, e);
      assert TakesFile(es[u], id);
    } else if es[e].DropRow? {
      u := LockTaken(maxSize, ss, es, e);
    }
  }

  // A Put after which no row of the key has been put is the last.
  lemma PutIsLast(maxSize: nat, ss: seq<State>, es: seq<Step>, id: ObjKey, p: nat, q: nat, k: nat)
    requires Run(maxSize, ss, es) && p < q < k < |ss| && Unlocked(ss[k], id)
    requires Renames(es[p], id) && es[q] == PutRow(id, es[p].size)
    requires forall m :: p < m <= q ==> ss[m].lock != Free
    requires forall m :: q < m < k ==> !(es[m].PutRow? && es[m].id == id)
    ensures LastPut(es, id, p, q, k)
  {
    hide Next;
    forall m | p < m < k ensures !Renames(es[m], id) {
      if m <= q {
        assert Enabled(maxSize, ss[m], es[m]);
      } else if Renames(es[m], id) {
        var _ := PutCompletes(maxSize, ss, es, id, m, k);
      }
    }
  }

  // ---------------------------------------------------------------- and the other

  lemma Orphaned(maxSize: nat, ss: seq<State>, es: seq<Step>, id: ObjKey, p: nat, q: nat, e: nat, k: nat)
    requires Run(maxSize, ss, es) && k < |ss| && LastPut(es, id, p, q, k) && q < e < k && TakesRow(es[e], id)
    requires forall i :: p < i < k ==> !TakesFile(es[i], id)
    ensures id in ss[k].files && id !in ss[k].rows
  {
    hide Next;
    PutLeaves(maxSize, ss[p], es[p]);
    PutLeaves(maxSize, ss[q], es[q]);
    TakeTakes(maxSize, ss[e], es[e], id);
    assert ss[q + 1].lock == Free;
    if id !in ss[k].files {
      var _ := FileLost(maxSize, ss, es, id, p + 1, k);
    }
    if id in ss[k].rows {
      var j := RowAppears(maxSize, ss, es, id, e + 1, k);
      var _ := LockTaken(maxSize, ss, es, j);
    }
  }

  lemma Dangling(maxSize: nat, ss: seq<State>, es: seq<Step>, id: ObjKey, p: nat, q: nat, u: nat, k: nat)
    requires Run(maxSize, ss, es) && k < |ss| && LastPut(es, id, p, q, k) && p < u < q && TakesFile(es[u], id)
    requires forall i :: q < i < k ==> !TakesRow(es[i], id)
    ensures id in ss[k].rows && id !in ss[k].files
  {
    hide Next;
    PutLeaves(maxSize, ss[q], es[q]);
    TakeTakes(maxSize, ss[u], es[u], id);
    if id !in ss[k].rows {
      var _ := RowLost(maxSize, ss, es, id, q + 1, k);
    }
    if id in ss[k].files {
      var _ := FileAppears(maxSize, ss, es, id, u + 1, k);
    }
  }

  lemma TakeTakes(maxSize: nat, s: State, e: Step, id: ObjKey)
    requires Enabled(maxSize, s, e)
    ensures TakesFile(e, id) ==> id !in Next(maxSize, s, e).files
    ensures TakesRow(e, id) ==> id !in Next(maxSize, s, e).rows
  {
  }

  // ---------------------------------------------------------------- what a run has seen

  // A file that is there was put at p, or has been there from the beginning.
  lemma {:induction false} FileSince(maxSize: nat, ss: seq<State>, es: seq<Step>, id: ObjKey, k: nat) returns (p: int)
    requires Run(maxSize, ss, es) && k < |ss| && id in ss[k].files
    ensures -1 <= p < k && (p < 0 || Renames(es[p], id))
    ensures forall i :: p < i < k ==> !TakesFile(es[i], id) && !Renames(es[i], id)
    ensures forall i :: p < i <= k ==> id in ss[i].files
  {
    if k == 0 {
      p := -1;
    } else if Renames(es[k - 1], id) {
      p := k - 1;
    } else {
      p := FileSince(maxSize, ss, es, id, k - 1);
    }
  }

  lemma {:induction false} RowSince(maxSize: nat, ss: seq<State>, es: seq<Step>, id: ObjKey, k: nat) returns (q: int)
    requires Run(maxSize, ss, es) && k < |ss| && id in ss[k].rows
    ensures -1 <= q < k && (q < 0 || (es[q].PutRow? && es[q].id == id))
    ensures forall i :: q < i < k ==> !TakesRow(es[i], id) && !(es[i].PutRow? && es[i].id == id)
    ensures q < 0 ==> id in ss[0].rows
  {
    if k == 0 {
      q := -1;
    } else if es[k - 1].PutRow? && es[k - 1].id == id {
      q := k - 1;
    } else {
      q := RowSince(maxSize, ss, es, id, k - 1);
    }
  }

  lemma {:induction false} FileLost(maxSize: nat, ss: seq<State>, es: seq<Step>, id: ObjKey, i: nat, k: nat)
    returns (u: nat)
    requires Run(maxSize, ss, es) && i <= k < |ss| && id in ss[i].files && id !in ss[k].files
    ensures i <= u < k && TakesFile(es[u], id) && id in ss[u].files
  {
    if id in ss[k - 1].files {
      u := k - 1;
    } else {
      u := FileLost(maxSize, ss, es, id, i, k - 1);
    }
  }

  lemma {:induction false} RowLost(maxSize: nat, ss: seq<State>, es: seq<Step>, id: ObjKey, i: nat, k: nat)
    returns (e: nat)
    requires Run(maxSize, ss, es) && i <= k < |ss| && id in ss[i].rows && id !in ss[k].rows
    ensures i <= e < k && TakesRow(es[e], id)
  {
    if id in ss[k - 1].rows {
      e := k - 1;
    } else {
      e := RowLost(maxSize, ss, es, id, i, k - 1);
    }
  }

  lemma {:induction false} FileAppears(maxSize: nat, ss: seq<State>, es: seq<Step>, id: ObjKey, i: nat, k: nat)
    returns (j: nat)
    requires Run(maxSize, ss, es) && i <= k < |ss| && id !in ss[i].files && id in ss[k].files
    ensures i <= j < k && Renames(es[j], id)
  {
    if id !in ss[k - 1].files {
      j := k - 1;
    } else {
      j := FileAppears(maxSize, ss, es, id, i, k - 1);
    }
  }

  lemma {:induction false} RowAppears(maxSize: nat, ss: seq<State>, es: seq<Step>, id: ObjKey, i: nat, k: nat)
    returns (j: nat)
    requires Run(maxSize, ss, es) && i <= k < |ss| && id !in ss[i].rows && id in ss[k].rows
    ensures i <= j < k && es[j].PutRow? && es[j].id == id && ss[j].lock == Putting(id, es[j].size)
  {
    if id !in ss[k - 1].rows {
      j := k - 1;
    } else {
      j := RowAppears(maxSize, ss, es, id, i, k - 1);
    }
  }

  // Whoever holds the lock took it at d and has held it since.
  lemma {:induction false} LockTaken(maxSize: nat, ss: seq<State>, es: seq<Step>, k: nat) returns (d: nat)
    requires Run(maxSize, ss, es) && k < |ss| && ss[k].lock != Free
    ensures d < k && forall m :: d < m <= k ==> ss[m].lock == ss[k].lock
    ensures ss[k].lock.Putting? ==> es[d] == PutFile(ss[k].lock.id, ss[k].lock.size)
    ensures ss[k].lock.Dropping? ==> es[d] == DropFile(ss[k].lock.id)
  {
    if ss[k - 1].lock == Free {
      d := k - 1;
    } else {
      d := LockTaken(maxSize, ss, es, k - 1);
    }
  }

  // A Put or Invalidate that has given the lock back has done its second step.
  lemma {:induction false} LockGiven(maxSize: nat, ss: seq<State>, es: seq<Step>, d: nat, k: nat) returns (q: nat)
    requires Run(maxSize, ss, es) && d < k < |ss| && (es[d].PutFile? || es[d].DropFile?)
    requires Unlocked(ss[k], es[d].id)
    ensures d < q < k && ss[q + 1].lock == Free
    ensures es[q] == if es[d].PutFile? then PutRow(es[d].id, es[d].size) else DropRow(es[d].id)
  {
    if Unlocked(ss[k - 1], es[d].id) && d < k - 1 {
      q := LockGiven(maxSize, ss, es, d, k - 1);
    } else {
      var taken := LockTaken(maxSize, ss, es, k - 1);
      if taken == d {
        q := k - 1;
      } else {
        q := LockGiven(maxSize, ss, es, d, taken);
      }
    }
  }

  lemma PutCompletes(maxSize: nat, ss: seq<State>, es: seq<Step>, id: ObjKey, p: nat, k: nat) returns (q: nat)
    requires Run(maxSize, ss, es) && p < k < |ss| && Renames(es[p], id) && Unlocked(ss[k], id)
    ensures p < q < k && es[q] == PutRow(id, es[p].size) && ss[q + 1].lock == Free && id in ss[q + 1].rows
  {
    hide Next;
    q := LockGiven(maxSize, ss, es, p, k);
    PutLeaves(maxSize, ss[q], es[q]);
  }

  // Who has taken a file away has taken its row too.
  lemma TakeEnds(maxSize: nat, ss: seq<State>, es: seq<Step>, id: ObjKey, u: nat, k: nat) returns (e: nat)
    requires Run(maxSize, ss, es) && u < k < |ss| && TakesFile(es[u], id) && id in ss[u].files
    requires Unlocked(ss[k], id) && forall r :: !Between(ss[k], r, id)
    ensures u < e < k && TakesRow(es[e], id)
    ensures es[u].Unlink? ==> Eviction(ss, es, id, u, e)
    ensures es[u].DropFile? ==> ss[u].lock == Free
  {
    hide Next;
    assert Enabled(maxSize, ss[u], es[u]);
    if es[u].Unlink? {
      e := UnlinkFollowed(maxSize, ss, es, es[u].r, id, u, k);
    } else {
      e := LockGiven(maxSize, ss, es, u, k);
    }
  }

  // A run between its two steps has unlinked the file at u.
  lemma {:induction false} UnlinkedSince(maxSize: nat, ss: seq<State>, es: seq<Step>, r: nat, id: ObjKey, k: nat)
    returns (u: nat)
    requires Run(maxSize, ss, es) && k < |ss| && Between(ss[k], r, id)
    ensures u < k && es[u] == Unlink(r, id) && id in ss[u].files
    ensures forall i :: u < i < k ==> es[i] != DropEvicted(r, id)
    ensures forall i :: u < i <= k ==> Between(ss[i], r, id)
  {
    hide Next, Enabled;
    BetweenStep(maxSize, ss[k - 1], es[k - 1], r, id);
    if Between(ss[k - 1], r, id) {
      u := UnlinkedSince(maxSize, ss, es, r, id, k - 1);
    } else {
      u := k - 1;
    }
  }

  lemma BetweenStep(maxSize: nat, s: State, e: Step, r: nat, id: ObjKey)
    requires Enabled(maxSize, s, e)
    ensures Between(Next(maxSize, s, e), r, id) <==>
              if Between(s, r, id) then e != DropEvicted(r, id) else e == Unlink(r, id) && id in s.files
    ensures e == Unlink(r, id) ==> !Between(s, r, id)
  {
  }

  lemma {:induction false} UnlinkFollowed(maxSize: nat, ss: seq<State>, es: seq<Step>, r: nat, id: ObjKey, u: nat,
                                          k: nat)
    returns (e: nat)
    requires Run(maxSize, ss, es) && u < k < |ss| && es[u] == Unlink(r, id) && id in ss[u].files
    requires !Between(ss[k], r, id)
    ensures e < k && Eviction(ss, es, id, u, e)
  {
    hide Next, Enabled, Between;
    BetweenStep(maxSize, ss[u], es[u], r, id);
    BetweenStep(maxSize, ss[k - 1], es[k - 1], r, id);
    if !Between(ss[k - 1], r, id) {
      e := UnlinkFollowed(maxSize, ss, es, r, id, u, k - 1);
    } else {
      var last := UnlinkedSince(maxSize, ss, es, r, id, k - 1);
      if last == u {
        e := k - 1;
      } else {
        BetweenStep(maxSize, ss[last], es[last], r, id);
        e := UnlinkFollowed(maxSize, ss, es, r, id, u, last);
      }
    }
  }

  // ---------------------------------------------------------------- and it does go wrong

  lemma Extended(maxSize: nat, ss: seq<State>, es: seq<Step>, e: Step) returns (ss': seq<State>, es': seq<Step>)
    requires |ss| == |es| + 1 && Run(maxSize, ss, es) && Enabled(maxSize, ss[|es|], e)
    ensures |ss'| == |es'| + 1 && ss'[|es'|] == Next(maxSize, ss[|es|], e)
    ensures es' == es + [e] && ss' == ss + [Next(maxSize, ss[|es|], e)] && Run(maxSize, ss', es')
  {
    hide Next;
    es', ss' := es + [e], ss + [Next(maxSize, ss[|es|], e)];
  }

  // Put and Invalidate only need the lock, and leave the two in agreement.
  lemma PutGoesThrough(maxSize: nat, ss: seq<State>, es: seq<Step>, id: ObjKey, size: nat)
    returns (ss': seq<State>, es': seq<Step>)
    requires |ss| == |es| + 1 && Run(maxSize, ss, es) && ss[|es|].lock == Free
    ensures |ss'| == |es'| + 1 && Run(maxSize, ss', es') && es' == es + [PutFile(id, size), PutRow(id, size)]
    ensures ss'[|es'|] == State(ss[|es|].files + {id}, ss[|es|].rows[id := size], Free, ss[|es|].runs)
  {
    hide Run;
    ss', es' := Extended(maxSize, ss, es, PutFile(id, size));
    ss', es' := Extended(maxSize, ss', es', PutRow(id, size));
  }

  lemma InvalidateGoesThrough(maxSize: nat, ss: seq<State>, es: seq<Step>, id: ObjKey)
    returns (ss': seq<State>, es': seq<Step>)
    requires |ss| == |es| + 1 && Run(maxSize, ss, es) && ss[|es|].lock == Free
    ensures |ss'| == |es'| + 1 && Run(maxSize, ss', es') && es' == es + [DropFile(id), DropRow(id)]
    ensures ss'[|es'|] == State(ss[|es|].files - {id}, ss[|es|].rows - {id}, Free, ss[|es|].runs)
  {
    hide Run;
    ss', es' := Extended(maxSize, ss, es, DropFile(id));
    ss', es' := Extended(maxSize, ss', es', DropRow(id));
  }

  lemma TotalOfOne(id: ObjKey, size: nat)
    ensures Total(map[id := size]) == size
  {
    var m: Sizes := map[id := size];
    assert id in m;
    var j :| j in m && Total(m) == m[j] + Total(m - {j});
    assert m - {j} == map[];
  }

  // A file downloaded again while eviction is on its old copy: it stays without a row, counts
  // nowhere, and no later eviction will list it.
  lemma PutDuringEviction(maxSize: nat, id: ObjKey, size: nat, again: nat) returns (ss: seq<State>, es: seq<Step>)
    requires size > maxSize * 9 / 10
    ensures Run(maxSize, ss, es) && ss[|es|].lock == Free && id in ss[|es|].files && id !in ss[|es|].rows
  {
    hide Run;
    ss, es := OneListed(maxSize, id, size);
    ss, es := Extended(maxSize, ss, es, Unlink(0, id));
    ss, es := Extended(maxSize, ss, es, PutFile(id, again));
    ss, es := Extended(maxSize, ss, es, PutRow(id, again));
    ss, es := Extended(maxSize, ss, es, DropEvicted(0, id));
  }

  // And a row put for a file that eviction has unlinked in the meantime; a later Get drops it.
  lemma EvictionDuringPut(maxSize: nat, id: ObjKey, size: nat, again: nat) returns (ss: seq<State>, es: seq<Step>)
    requires size > maxSize * 9 / 10
    ensures Run(maxSize, ss, es) && ss[|es|].lock == Free && id in ss[|es|].rows && id !in ss[|es|].files
    ensures Enabled(maxSize, ss[|es|], Heal(id))
  {
    hide Run;
    ss, es := OneListed(maxSize, id, size);
    ss, es := Extended(maxSize, ss, es, PutFile(id, again));
    ss, es := Extended(maxSize, ss, es, Unlink(0, id));
    ss, es := Extended(maxSize, ss, es, DropEvicted(0, id));
    ss, es := Extended(maxSize, ss, es, PutRow(id, again));
  }

  lemma OneListed(maxSize: nat, id: ObjKey, size: nat) returns (ss: seq<State>, es: seq<Step>)
    requires size > maxSize * 9 / 10
    ensures |ss| == |es| + 1 && Run(maxSize, ss, es)
    ensures ss[|es|] ==
      State({id}, map[id := size], Free, map[0 := Working([Due(id, size)], size, false)])
  {
    hide Run;
    var s := State({id}, map[id := size], Free, map[]);
    TotalOfOne(id, size);
    ss, es := Started(maxSize, s);
    ss, es := Extended(maxSize, ss, es, ReadTotal(0));
    ss, es := Extended(maxSize, ss, es, ReadList(0, [Due(id, size)]));
  }

  lemma Started(maxSize: nat, s: State) returns (ss: seq<State>, es: seq<Step>)
    requires s.files == s.rows.Keys && s.lock == Free && s.runs == map[]
    ensures ss == [s] && es == [] && Run(maxSize, ss, es)
  {
    ss, es := [s], [];
  }

  // ---------------------------------------------------------------- several runs at once

  // What run r has deleted before k, by the sizes it listed.
  ghost function Freed(ss: seq<State>, es: seq<Step>, r: nat, k: nat): nat
    requires |ss| == |es| + 1 && k <= |es|
  {
    if k == 0 then 0
    else if es[k - 1].DropEvicted? && es[k - 1].r == r && AtHead(ss[k - 1], r, es[k - 1].id) then
      Freed(ss, es, r, k - 1) + ss[k - 1].runs[r].todo[0].size
    else Freed(ss, es, r, k - 1)
  }

  // A run counts down from the total it once read by what it has deleted itself. So what it goes on
  // to delete is what it would need alone, however much others have freed in the meantime.
  lemma {:induction false} RunsCountAlone(maxSize: nat, ss: seq<State>, es: seq<Step>, r: nat, k: nat) returns (i: nat)
    requires Run(maxSize, ss, es) && k < |ss| && r in ss[k].runs
    ensures i < k && es[i] == ReadTotal(r) && ss[k].runs[r].total == Total(ss[i].rows) - Freed(ss, es, r, k)
    ensures forall id :: k < |es| && es[k] == Unlink(r, id) ==>
      Freed(ss, es, r, k) < Total(ss[i].rows) - maxSize * 8 / 10
  {
    hide Next;
    RunStep(maxSize, ss[k - 1], es[k - 1], r);
    if r in ss[k - 1].runs {
      i := RunsCountAlone(maxSize, ss, es, r, k - 1);
    } else {
      i := k - 1;
      NothingFreed(maxSize, ss, es, r, k - 1);
    }
  }

  lemma RunStep(maxSize: nat, s: State, e: Step, r: nat)
    requires Enabled(maxSize, s, e)
    ensures var s' := Next(maxSize, s, e);
      && (r in s'.runs <==> r in s.runs || e == ReadTotal(r))
      && (r in s.runs ==>
            s'.runs[r].total ==
            s.runs[r].total - if e.DropEvicted? && e.r == r then s.runs[r].todo[0].size else 0)
      && (r !in s.runs && r in s'.runs ==> s'.runs[r].total == Total(s.rows))
  {
  }

  lemma {:induction false} NothingFreed(maxSize: nat, ss: seq<State>, es: seq<Step>, r: nat, k: nat)
    requires Run(maxSize, ss, es) && k < |ss| && r !in ss[k].runs
    ensures Freed(ss, es, r, k) == 0
  {
    hide Next;
    if k == 0 {
    } else {
      RunStep(maxSize, ss[k - 1], es[k - 1], r);
      NothingFreed(maxSize, ss, es, r, k - 1);
    }
  }

  lemma TotalOfTwo(a: ObjKey, m: nat, b: ObjKey, n: nat)
    requires a != b
    ensures Total(map[a := m, b := n]) == m + n
  {
    var rows: Sizes := map[a := m, b := n];
    assert a in rows && b in rows;
    var j :| j in rows && Total(rows) == rows[j] + Total(rows - {j});
    var other := if j == a then b else a;
    assert rows - {j} == map[other := rows[other]];
    TotalOfOne(other, rows[other]);
  }

  // Two runs that have read the same total: the first gets below the target and leaves b in the
  // cache, as it would alone; the second passes a over and deletes b all the same.
  lemma TwoRunsTakeMore(maxSize: nat, a: ObjKey, m: nat, b: ObjKey, n: nat)
    returns (ss: seq<State>, es: seq<Step>, done: nat)
    requires a != b && m + n > maxSize * 9 / 10 && n <= maxSize * 8 / 10
    ensures Run(maxSize, ss, es) && done < |ss|
    ensures ss[done].rows == map[b := n] && ss[done].files == {b} && 0 in ss[done].runs
    ensures forall id :: !Enabled(maxSize, ss[done], Unlink(0, id)) && !Enabled(maxSize, ss[done], DropEvicted(0, id))
    ensures ss[|es|].rows == map[] && ss[|es|].files == {}
  {
    hide Run;
    ss, es := FirstRun(maxSize, a, m, b, n);
    done := |es|;
    ghost var before := ss;
    ss, es := Extended(maxSize, ss, es, Unlink(1, a));
    ss, es := Extended(maxSize, ss, es, Unlink(1, b));
    ss, es := Extended(maxSize, ss, es, DropEvicted(1, b));
    assert ss[done] == before[done];
  }

  lemma FirstRun(maxSize: nat, a: ObjKey, m: nat, b: ObjKey, n: nat) returns (ss: seq<State>, es: seq<Step>)
    requires a != b && m + n > maxSize * 9 / 10 && n <= maxSize * 8 / 10
    ensures |ss| == |es| + 1 && Run(maxSize, ss, es)
    ensures var s := ss[|es|];
      && s.rows == map[b := n] && s.files == {b}
      && s.runs == map[0 := Working([Due(b, n)], n, false),
                       1 := Working([Due(a, m), Due(b, n)], m + n, false)]
  {
    hide Run;
    ss, es := BothListed(maxSize, a, m, b, n);
    assert [Due(a, m), Due(b, n)][1..] == [Due(b, n)];
    ss, es := Extended(maxSize, ss, es, Unlink(0, a));
    ss, es := Extended(maxSize, ss, es, DropEvicted(0, a));
  }

  lemma BothListed(maxSize: nat, a: ObjKey, m: nat, b: ObjKey, n: nat) returns (ss: seq<State>, es: seq<Step>)
    requires a != b && m + n > maxSize * 9 / 10
    ensures |ss| == |es| + 1 && Run(maxSize, ss, es)
    ensures var run := Working([Due(a, m), Due(b, n)], m + n, false);
      ss[|es|] == State({a, b}, map[a := m, b := n], Free, map[0 := run, 1 := run])
  {
    hide Run;
    var todo := [Due(a, m), Due(b, n)];
    var s := State({a, b}, map[a := m, b := n], Free, map[]);
    TotalOfTwo(a, m, b, n);
    ss, es := Started(maxSize, s);
    ss, es := Extended(maxSize, ss, es, ReadTotal(0));
    ss, es := Extended(maxSize, ss, es, ReadTotal(1));
    ss, es := Extended(maxSize, ss, es, ReadList(0, todo));
    ss, es := Extended(maxSize, ss, es, ReadList(1, todo));
  }
}
