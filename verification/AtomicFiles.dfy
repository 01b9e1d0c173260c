/**
 Concurrent use of the cache's files (internal/cache/store.go): any number of writes, reads and
 deletes, interleaved step by step, as Manager.Get, Put, Invalidate and several runs of evictOnce
 make them. A write fills a temp file and renames it; a read opens the path and reads what it has
 opened. So a read sees one complete write or fails.
 */
module AtomicFiles {
  import opened Ids
  import opened Buffers

  // A write in progress: what it copies, into which file, how much of it so far.
  datatype Writer = Writer(path: ObjKey, src: Bytes, inode: nat, copied: nat)

  // An open file is what it was when opened, whatever becomes of its name.
  datatype Reader = Reader(path: ObjKey, inode: nat)

  datatype Stored = Stored(path: ObjKey, content: Bytes)

  datatype ReadOutcome = NoFile(path: ObjKey) | Got(path: ObjKey, off: nat, len: nat, data: Bytes)

  datatype State = State(
    dir: map<ObjKey, nat>,       // names
    inodes: map<nat, Bytes>,     // files, named or not
    next: nat,
    writers: map<nat, Writer>,
    readers: map<nat, Reader>,
    done: set<Stored>,           // history: every write that went through to its rename
    outcomes: seq<ReadOutcome>)      // history: what reads returned

  datatype Step =
    | Create(w: nat, path: ObjKey, src: Bytes)  // os.CreateTemp in the path's directory
    | Copy(w: nat, n: nat)                      // a piece of io.Copy
    | Rename(w: nat)
    | GiveUp(w: nat)                            // any error: close and remove the temp file
    | Open(r: nat, path: ObjKey)
    | Read(r: nat, off: nat, len: nat)          // ReadAt and Close
    | Delete(path: ObjKey)                      // Invalidate, evictOnce

  predicate Enabled(s: State, e: Step) {
    match e
    case Create(w, _, _) => w !in s.writers
    case Copy(w, n) => w in s.writers && s.writers[w].copied + n <= |s.writers[w].src| && s.writers[w].inode in s.inodes
    case Rename(w) => w in s.writers && s.writers[w].copied == |s.writers[w].src|
    case GiveUp(w) => w in s.writers
    case Open(r, _) => r !in s.readers
    case Read(r, _, _) => r in s.readers && s.readers[r].inode in s.inodes
    case Delete(_) => true
  }

  function Next(s: State, e: Step): State
    requires Enabled(s, e)
  {
    match e
    case Create(w, path, src) =>
      s.(inodes := s.inodes[s.next := []], next := s.next + 1,
         writers := s.writers[w := Writer(path, src, s.next, 0)])
    case Copy(w, n) =>
      var x := s.writers[w];
      s.(inodes := s.inodes[x.inode := s.inodes[x.inode] + x.src[x.copied..x.copied + n]],
         writers := s.writers[w := x.(copied := x.copied + n)])
    case Rename(w) =>
      var x := s.writers[w];
      s.(dir := s.dir[x.path := x.inode], writers := s.writers - {w}, done := s.done + {Stored(x.path, x.src)})
    case GiveUp(w) => s.(writers := s.writers - {w})
    case Open(r, path) =>
      if path in s.dir then s.(readers := s.readers[r := Reader(path, s.dir[path])])
      else s.(outcomes := s.outcomes + [NoFile(path)])
    case Read(r, off, len) =>
      var x := s.readers[r];
      var got := Got(x.path, off, len, ReadAt(s.inodes[x.inode], off, len));
      s.(readers := s.readers - {r}, outcomes := s.outcomes + [got])
    case Delete(path) => s.(dir := s.dir - {path})
  }

  predicate Run(ss: seq<State>, es: seq<Step>) {
    && |ss| == |es| + 1
    && ss[0] == State(map[], map[], 0, map[], map[], {}, [])
    && forall i :: 0 <= i < |es| ==> Enabled(ss[i], es[i]) && ss[i + 1] == Next(ss[i], es[i])
  }

  // ---------------------------------------------------------------- invariant

  // A file that has been named for this path: complete, and nobody writes to it any more.
  predicate Complete(s: State, path: ObjKey, inode: nat) {
    && inode in s.inodes && Stored(path, s.inodes[inode]) in s.done
    && forall w <- s.writers :: s.writers[w].inode != inode
  }

  predicate WriterInv(s: State, x: Writer) {
    && x.inode in s.inodes && x.copied <= |x.src|
    && s.inodes[x.inode] == x.src[..x.copied]
  }

  ghost predicate WritersInv(s: State) {
    && (forall i <- s.inodes :: i < s.next)
    && (forall w <- s.writers :: WriterInv(s, s.writers[w]))
    && (forall w <- s.writers, v <- s.writers :: s.writers[w].inode == s.writers[v].inode ==> w == v)
  }

  ghost predicate FilesInv(s: State) {
    && (forall p <- s.dir :: Complete(s, p, s.dir[p]))
    && (forall r <- s.readers :: Complete(s, s.readers[r].path, s.readers[r].inode))
  }

  // The bytes are the requested slice of the whole content of one write to the path.
  predicate Slice(done: set<Stored>, o: ReadOutcome) {
    o.Got? ==> exists x <- done :: x.path == o.path && o.data == ReadAt(x.content, o.off, o.len)
  }

  ghost predicate Inv(s: State) {
    WritersInv(s) && FilesInv(s) && forall o <- s.outcomes :: Slice(s.done, o)
  }

  lemma WritersKept(s: State, e: Step)
    requires WritersInv(s) && Enabled(s, e)
    ensures WritersInv(Next(s, e))
  {
    if e.Copy? {
      var x := s.writers[e.w];
      assert x.src[..x.copied + e.n] == x.src[..x.copied] + x.src[x.copied..x.copied + e.n];
    }
  }

  // A complete file stays as it is under every step.
  lemma CompleteStays(s: State, e: Step, path: ObjKey, inode: nat)
    requires WritersInv(s) && Enabled(s, e) && Complete(s, path, inode)
    ensures Complete(Next(s, e), path, inode)
  {
    var s' := Next(s, e);
    forall w <- s'.writers ensures s'.writers[w].inode != inode {
      assert w in s.writers || e.Create?;
    }
  }

  lemma FilesKept(s: State, e: Step)
    requires WritersInv(s) && FilesInv(s) && Enabled(s, e)
    ensures FilesInv(Next(s, e))
  {
    hide WritersInv;
    var s' := Next(s, e);
    forall p: ObjKey, i: nat | Complete(s, p, i) ensures Complete(s', p, i) {
      CompleteStays(s, e, p, i);
    }
    if e.Rename? {
      Renamed(s, e.w);
    }
  }

  lemma Renamed(s: State, w: nat)
    requires WritersInv(s) && Enabled(s, Rename(w))
    ensures Complete(Next(s, Rename(w)), s.writers[w].path, s.writers[w].inode)
  {
    var x := s.writers[w];
    assert WriterInv(s, x) && x.src[..x.copied] == x.src;
  }

  lemma ReadsKept(s: State, e: Step)
    requires Inv(s) && Enabled(s, e)
    ensures forall o <- Next(s, e).outcomes :: Slice(Next(s, e).done, o)
  {
    hide WritersInv;
    var s' := Next(s, e);
    forall o <- s'.outcomes ensures Slice(s'.done, o) {
      if o in s.outcomes {
        assert Slice(s.done, o);
      } else if e.Read? {
        assert Stored(o.path, s.inodes[s.readers[e.r].inode]) in s.done;
      }
    }
  }

  lemma {:induction false} RunKeepsInv(ss: seq<State>, es: seq<Step>, k: nat)
    requires Run(ss, es) && k < |ss|
    ensures Inv(ss[k])
  {
    if k == 0 {
    } else {
      RunKeepsInv(ss, es, k - 1);
      WritersKept(ss[k - 1], es[k - 1]);
      FilesKept(ss[k - 1], es[k - 1]);
      ReadsKept(ss[k - 1], es[k - 1]);
    }
  }

  // In every interleaving, whatever a read returns is a slice of one whole write to that path,
  // never a mixture and never part of a write that was given up.
  lemma ReadsAreWhole(ss: seq<State>, es: seq<Step>, k: nat, o: ReadOutcome)
    requires Run(ss, es) && k < |ss| && o in ss[k].outcomes
    ensures o.Got? ==> exists x <- ss[k].done :: x.path == o.path && o.data == ReadAt(x.content, o.off, o.len)
  {
    RunKeepsInv(ss, es, k);
    assert Slice(ss[k].done, o);
  }

  // An open file outlives its name: a delete or a later write does not change what is read.
  lemma {:induction false} OpenFileFixed(ss: seq<State>, es: seq<Step>, i: nat, k: nat, r: nat)
    requires Run(ss, es) && i <= k < |ss| && r in ss[i].readers
    requires forall j :: i <= j < k ==> !(es[j].Read? && es[j].r == r)
    ensures r in ss[k].readers && ss[k].readers[r] == ss[i].readers[r]
    ensures ss[i].readers[r].inode in ss[i].inodes && ss[i].readers[r].inode in ss[k].inodes
    ensures ss[k].inodes[ss[i].readers[r].inode] == ss[i].inodes[ss[i].readers[r].inode]
  {
    RunKeepsInv(ss, es, i);
    var x := ss[i].readers[r];
    assert Complete(ss[i], x.path, x.inode);
    if i == k {
    } else {
      OpenFileFixed(ss, es, i, k - 1, r);
      RunKeepsInv(ss, es, k - 1);
      assert Complete(ss[k - 1], x.path, x.inode);
      FileFixed(ss[k - 1], es[k - 1], x.path, x.inode);
    }
  }

  lemma FileFixed(s: State, e: Step, path: ObjKey, inode: nat)
    requires WritersInv(s) && Enabled(s, e) && Complete(s, path, inode)
    ensures inode in Next(s, e).inodes && Next(s, e).inodes[inode] == s.inodes[inode]
  {
  }

  // ---------------------------------------------------------------- which write a read returns

  predicate RenamesTo(s: State, e: Step, path: ObjKey) {
    e.Rename? && e.w in s.writers && s.writers[e.w].path == path
  }

  // Before step k, the last thing that happened to this name was rename w, and not a delete.
  ghost predicate NamedBy(ss: seq<State>, es: seq<Step>, path: ObjKey, w: nat, k: nat)
    requires Run(ss, es) && k <= |es|
  {
    w < k && RenamesTo(ss[w], es[w], path) && forall i ::
      w < i < k ==> !RenamesTo(ss[i], es[i], path) && es[i] != Delete(path)
  }

  // This step began the write that rename w finished: what it was given is what it wrote.
  predicate Writes(es: seq<Step>, c: nat, w: nat, path: ObjKey, src: Bytes) {
    && c < w < |es| && es[w].Rename? && es[c] == Create(es[w].w, path, src)
    && forall i :: c < i < w ==> !(es[i].Create? && es[i].w == es[w].w)
  }

  // A name in the directory is that of the last rename, and the file holds what that write was given.
  lemma {:induction false} DirSince(ss: seq<State>, es: seq<Step>, path: ObjKey, k: nat) returns (c: nat, w: nat)
    requires Run(ss, es) && k < |ss| && path in ss[k].dir
    ensures NamedBy(ss, es, path, w, k) && ss[k].dir[path] in ss[k].inodes
    ensures Writes(es, c, w, path, ss[k].inodes[ss[k].dir[path]])
  {
    hide Next, WritersInv, Complete;
    RunKeepsInv(ss, es, k - 1);
    var s, e := ss[k - 1], es[k - 1];
    DirStep(s, e, path);
    if RenamesTo(s, e, path) {
      w := k - 1;
      c := Begun(ss, es, e.w, w);
      RenameWhole(s, e.w);
    } else {
      c, w := DirSince(ss, es, path, k - 1);
      FileFixed(s, e, path, s.dir[path]);
    }
  }

  lemma DirStep(s: State, e: Step, path: ObjKey)
    requires Enabled(s, e) && path in Next(s, e).dir
    ensures if RenamesTo(s, e, path) then Next(s, e).dir[path] == s.writers[e.w].inode
            else e != Delete(path) && path in s.dir && Next(s, e).dir[path] == s.dir[path]
  {
  }

  lemma RenameWhole(s: State, w: nat)
    requires WritersInv(s) && Enabled(s, Rename(w))
    ensures Next(s, Rename(w)).inodes == s.inodes
    ensures s.writers[w].inode in s.inodes && s.inodes[s.writers[w].inode] == s.writers[w].src
  {
    var x := s.writers[w];
    assert WriterInv(s, x) && x.src[..x.copied] == x.src;
  }

  // A write in progress has been begun, with this path and this source.
  lemma {:induction false} Begun(ss: seq<State>, es: seq<Step>, w: nat, k: nat) returns (c: nat)
    requires Run(ss, es) && k < |ss| && w in ss[k].writers
    ensures c < k && es[c] == Create(w, ss[k].writers[w].path, ss[k].writers[w].src)
    ensures forall i :: c < i < k ==> !(es[i].Create? && es[i].w == w)
  {
    if es[k - 1].Create? && es[k - 1].w == w {
      c := k - 1;
    } else {
      c := Begun(ss, es, w, k - 1);
    }
  }

  // And a name that was made and not deleted is there.
  lemma {:induction false} NameThere(ss: seq<State>, es: seq<Step>, path: ObjKey, w: nat, k: nat)
    requires Run(ss, es) && k < |ss| && NamedBy(ss, es, path, w, k)
    ensures path in ss[k].dir
  {
    if k == w + 1 {
    } else {
      NameThere(ss, es, path, w, k - 1);
    }
  }

  lemma ReaderStep(s: State, e: Step, r: nat)
    requires Enabled(s, e) && r in Next(s, e).readers
    ensures var s' := Next(s, e);
      if e.Open? && e.r == r then
        && e.path in s.dir && s'.readers[r] == Reader(e.path, s.dir[e.path]) && s'.inodes == s.inodes
      else r in s.readers && s'.readers[r] == s.readers[r] && !(e.Read? && e.r == r)
  {
  }

  // An open file: the step that opened it, and what it has held from then on.
  lemma {:induction false} OpenedAt(ss: seq<State>, es: seq<Step>, r: nat, k: nat) returns (o: nat)
    requires Run(ss, es) && k < |ss| && r in ss[k].readers
    ensures o < k && es[o] == Open(r, ss[k].readers[r].path) && ss[k].readers[r].path in ss[o].dir
    ensures ss[k].readers[r].inode == ss[o].dir[ss[k].readers[r].path]
    ensures forall i :: o < i < k ==> !(es[i].Read? && es[i].r == r)
    ensures r in ss[o + 1].readers && ss[o + 1].readers[r] == ss[k].readers[r] && ss[o + 1].inodes == ss[o].inodes
  {
    hide Next;
    ReaderStep(ss[k - 1], es[k - 1], r);
    if es[k - 1].Open? && es[k - 1].r == r {
      o := k - 1;
    } else {
      o := OpenedAt(ss, es, r, k - 1);
    }
  }

  // Every read returns what the last write to its path before the file was opened was given, whatever
  // has happened to the name since.
  lemma ReadsLastWrite(ss: seq<State>, es: seq<Step>, j: nat, r: nat, off: nat, len: nat)
    returns (path: ObjKey, src: Bytes, c: nat, w: nat, o: nat)
    requires Run(ss, es) && j < |es| && es[j] == Read(r, off, len)
    ensures w < o < j && es[o] == Open(r, path) && forall i :: o < i < j ==> !(es[i].Read? && es[i].r == r)
    ensures NamedBy(ss, es, path, w, o) && Writes(es, c, w, path, src)
    ensures ss[j + 1].outcomes == ss[j].outcomes + [Got(path, off, len, ReadAt(src, off, len))]
  {
    o := OpenedAt(ss, es, r, j);
    path := ss[j].readers[r].path;
    c, w := DirSince(ss, es, path, o);
    src := ss[o].inodes[ss[o].dir[path]];
    OpenFileFixed(ss, es, o + 1, j, r);
  }

  // An open fails exactly if the path has never been written, or was deleted after its last write.
  lemma OpenFailsExactly(ss: seq<State>, es: seq<Step>, o: nat, r: nat, path: ObjKey)
    requires Run(ss, es) && o < |es| && es[o] == Open(r, path)
    ensures if exists w ::
      NamedBy(ss, es, path, w, o) then ss[o + 1].outcomes == ss[o].outcomes && r in ss[o + 1].readers
            else ss[o + 1].outcomes == ss[o].outcomes + [NoFile(path)]
  {
    if path in ss[o].dir {
      var _, w := DirSince(ss, es, path, o);
    } else {
      forall w | NamedBy(ss, es, path, w, o) ensures false {
        NameThere(ss, es, path, w, o);
      }
    }
  }

  // Nothing else is ever returned: each outcome is that of one Read or Open.
  lemma {:induction false} OutcomeOf(ss: seq<State>, es: seq<Step>, k: nat, n: nat) returns (j: nat)
    requires Run(ss, es) && k < |ss| && n < |ss[k].outcomes|
    ensures j < k && (es[j].Read? || es[j].Open?) && |ss[j].outcomes| == n
    ensures ss[j + 1].outcomes == ss[j].outcomes + [ss[k].outcomes[n]]
  {
    hide Next;
    OutcomeStep(ss[k - 1], es[k - 1]);
    if n < |ss[k - 1].outcomes| {
      j := OutcomeOf(ss, es, k - 1, n);
    } else {
      j := k - 1;
    }
  }

  lemma OutcomeStep(s: State, e: Step)
    requires Enabled(s, e)
    ensures var s' := Next(s, e);
      || s'.outcomes == s.outcomes
      || ((e.Read? || e.Open?) && |s'.outcomes| == |s.outcomes| + 1 && s'.outcomes[..|s.outcomes|] == s.outcomes)
  {
  }

  // ---------------------------------------------------------------- and nothing stands in the way

  lemma Extended(ss: seq<State>, es: seq<Step>, e: Step) returns (ss': seq<State>, es': seq<Step>)
    requires |ss| == |es| + 1 && Run(ss, es) && Enabled(ss[|es|], e)
    ensures |ss'| == |es'| + 1 && ss'[|es'|] == Next(ss[|es|], e)
    ensures es' == es + [e] && Run(ss', es')
  {
    hide Next;
    es', ss' := es + [e], ss + [Next(ss[|es|], e)];
  }

  // Whatever else is under way, a write can be done in pieces and read back.
  lemma WriteReadsBack(ss: seq<State>, es: seq<Step>, w: nat, r: nat, path: ObjKey, src: Bytes, n: nat, off: nat,
                       len: nat)
    returns (ss': seq<State>, es': seq<Step>)
    requires |ss| == |es| + 1 && Run(ss, es) && w !in ss[|es|].writers && r !in ss[|es|].readers && n <= |src|
    ensures |ss'| == |es'| + 1 && Run(ss', es')
    ensures es' ==
      es + [Create(w, path, src), Copy(w, n), Copy(w, |src| - n), Rename(w), Open(r, path), Read(r, off, len)]
    ensures ss'[|es'|].outcomes == ss[|es|].outcomes + [Got(path, off, len, ReadAt(src, off, len))]
  {
    hide Run;
    ss', es' := Extended(ss, es, Create(w, path, src));
    ss', es' := Extended(ss', es', Copy(w, n));
    ss', es' := Extended(ss', es', Copy(w, |src| - n));
    assert [] + src[0..n] + src[n..n + (|src| - n)] == src;
    ss', es' := Extended(ss', es', Rename(w));
    ss', es' := Extended(ss', es', Open(r, path));
    ss', es' := Extended(ss', es', Read(r, off, len));
  }

  // And a file can be deleted at any time; then it cannot be opened.
  lemma DeleteGoesThrough(ss: seq<State>, es: seq<Step>, r: nat, path: ObjKey) returns (ss': seq<State>, es': seq<Step>)
    requires |ss| == |es| + 1 && Run(ss, es) && r !in ss[|es|].readers
    ensures |ss'| == |es'| + 1 && Run(ss', es') && es' == es + [Delete(path), Open(r, path)]
    ensures ss'[|es'|].outcomes == ss[|es|].outcomes + [NoFile(path)]
  {
    hide Run;
    ss', es' := Extended(ss, es, Delete(path));
    ss', es' := Extended(ss', es', Open(r, path));
  }
}
