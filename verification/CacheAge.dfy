/**
 How old a cached copy can be (Manager in internal/cache/manager.go): over any sequence of calls its age
 is counted from the Put that made it, however often it has been used since.
 */
module CacheAge {
  import opened Ids
  import opened Keys
  import opened Buffers
  import opened CacheEntries
  import opened DiskCache

  datatype Call =
    | DoGet(now: int, id: ObjKey, ttl: int, soleWriter: bool, dbOk: bool, rowOk: bool)
    | DoPut(now: int, id: ObjKey, content: Bytes, etag: string, size: nat, modified: int, fileOk: bool, rowOk: bool)
    | DoInvalidate(id: ObjKey, fileOk: bool, rowOk: bool)
    | DoTouch(now: int, id: ObjKey)
    | DoEvict(faults: Faults)

  predicate Puts(c: Call, id: ObjKey) {
    c.DoPut? && c.id == id && c.fileOk && c.rowOk
  }

  // The place of the last Put of the object before call i, or -1.
  function LastPut(calls: seq<Call>, i: nat, id: ObjKey): (j: int)
    requires i <= |calls|
    ensures -1 <= j < i && (j >= 0 ==> Puts(calls[j], id)) && forall k :: j < k < i ==> !Puts(calls[k], id)
  {
    if i == 0 then -1 else if Puts(calls[i - 1], id) then i - 1 else LastPut(calls, i - 1, id)
  }

  predicate Drops(c: Call, id: ObjKey) {
    c.DoInvalidate? && c.id == id && c.rowOk
  }

  // A row says what the last Put of its object gave it, but for the time of last use.
  predicate MadeBy(calls: seq<Call>, i: nat, e: CacheEntry)
    requires i <= |calls|
  {
    var j := LastPut(calls, i, Id(e));
    && j >= 0 && NoSlash(e.bucket) && (forall k :: j < k < i ==> !Drops(calls[k], Id(e)))
    && e == CacheEntry(e.bucket, e.key, calls[j].etag, calls[j].size, calls[j].modified, e.lastAccessed, calls[j].now)
  }

  ghost predicate AllMade(calls: seq<Call>, i: nat, m: Entries)
    requires i <= |calls|
  {
    Filed(m) && forall k <- m :: MadeBy(calls, i, m[k])
  }

  predicate ProperCall(c: Call) {
    c.DoEvict? || NoSlash(c.id.bucket)
  }

  // The hit of Get number i is on what the last Put of its object made, not invalidated since, and is
  // valid exactly if this gateway is the only writer or that Put was no longer ago than the time-to-live.
  predicate OnLastPut(calls: seq<Call>, i: nat, r: GetResult)
    requires i < |calls| && calls[i].DoGet? && r.Hit?
  {
    var c, j := calls[i], LastPut(calls, i, calls[i].id);
    && j >= 0 && (forall k :: j < k < i ==> !Drops(calls[k], c.id))
    && r.entry.etag == calls[j].etag && r.entry.size == calls[j].size
    && (r.valid <==> c.soleWriter || c.now - calls[j].now <= c.ttl)
  }

  // So it is of every hit, over any sequence of calls.
  method Session(m: Manager, calls: seq<Call>) returns (results: seq<GetResult>)
    requires m.meta.entries == map[] && m.evictor.meta == m.meta && m.evictor.store == m.store
    requires forall c <- calls :: ProperCall(c)
    modifies m.meta, m.store
    ensures |results| == |calls|
    ensures forall i :: 0 <= i < |calls| && calls[i].DoGet? && results[i].Hit? ==> OnLastPut(calls, i, results[i])
  {
    hide Agree, MadeBy, EntryKey, OnLastPut;
    results := [];
    for i := 0 to |calls|
      invariant |results| == i && AllMade(calls, i, m.meta.entries)
      invariant forall k :: 0 <= k < i && calls[k].DoGet? && results[k].Hit? ==> OnLastPut(calls, k, results[k])
    {
      assert calls[i] in calls;
      var r := Perform(m, calls, i);
      results := results + [r];
    }
  }

  method Perform(m: Manager, calls: seq<Call>, i: nat) returns (r: GetResult)
    requires i < |calls| && ProperCall(calls[i]) && AllMade(calls, i, m.meta.entries)
    requires m.evictor.meta == m.meta && m.evictor.store == m.store
    modifies m.meta, m.store
    ensures AllMade(calls, i + 1, m.meta.entries)
    ensures r.Hit? ==> calls[i].DoGet? && OnLastPut(calls, i, r)
    ensures calls[i].DoGet? ==>
      (r.Hit? <==> calls[i].dbOk && IsCached(old(m.meta.entries), m.store.files, calls[i].id))
  {
    hide Agree, MadeBy, EntryKey, IsLeastRecent, Sum, OnLastPut;
    r := Miss;
    match calls[i] {
      case DoGet(_, _, _, _, _, _) => r := Get(m, calls, i);
      case DoPut(now, id, content, etag, size, modified, fileOk, rowOk) =>
        ghost var was := m.meta.entries;
        var _, _ := m.Put(now, id.bucket, id.key, content, etag, size, modified, fileOk, rowOk);
        RowsStayMade(calls, i, was, m.meta.entries);
      case _ => Others(m, calls, i);
    }
  }

  method Get(m: Manager, calls: seq<Call>, i: nat) returns (r: GetResult)
    requires i < |calls| && calls[i].DoGet? && ProperCall(calls[i]) && AllMade(calls, i, m.meta.entries)
    modifies m.meta
    ensures AllMade(calls, i + 1, m.meta.entries) && (r.Hit? ==> OnLastPut(calls, i, r))
    ensures r.Hit? <==> calls[i].dbOk && IsCached(old(m.meta.entries), m.store.files, calls[i].id)
  {
    hide Agree, MadeBy, EntryKey, LastPut, AllMade;
    ghost var was := m.meta.entries;
    var c := calls[i];
    HitMade(calls, i, was, c.id);
    r := m.Get(c.now, c.id.bucket, c.id.key, c.ttl, c.soleWriter, c.dbOk, c.rowOk);
    GetKeeps(calls, i, was, m.meta.entries, EntryKey(c.id.bucket, c.id.key), c.now);
  }

  method Others(m: Manager, calls: seq<Call>, i: nat)
    requires i < |calls| && !calls[i].DoGet? && !calls[i].DoPut? && AllMade(calls, i, m.meta.entries)
    requires m.evictor.meta == m.meta && m.evictor.store == m.store && ProperCall(calls[i])
    modifies m.meta, m.store
    ensures AllMade(calls, i + 1, m.meta.entries)
  {
    hide Agree, MadeBy, EntryKey, IsLeastRecent, Sum;
    ghost var was := m.meta.entries;
    match calls[i] {
      case DoInvalidate(id, fileOk, rowOk) => var _ := m.Invalidate(id.bucket, id.key, fileOk, rowOk);
      case DoTouch(now, id) => m.meta.Touch(now, id.bucket, id.key);
      case DoEvict(faults) => var _, _, _ := m.evictor.EvictOnce(faults);
    }
    RowsStayMade(calls, i, was, m.meta.entries);
  }

  predicate IsCached(m: Entries, files: Files, id: ObjKey) {
    id in files && EntryKey(id.bucket, id.key) in m
  }

  lemma GetKeeps(calls: seq<Call>, i: nat, m: Entries, m': Entries, k: string, now: int)
    requires i < |calls| && calls[i].DoGet? && ProperCall(calls[i]) && AllMade(calls, i, m)
    requires m' == m || m' == m - {k} || (k in m && m' == m[k := m[k].(lastAccessed := now)])
    ensures AllMade(calls, i + 1, m')
  {
    hide MadeBy, EntryKey;
    RowsStayMade(calls, i, m, m');
  }

  // The row a Get finds is that object's.
  lemma HitMade(calls: seq<Call>, i: nat, m: Entries, id: ObjKey)
    requires i <= |calls| && AllMade(calls, i, m) && NoSlash(id.bucket)
    ensures EntryKey(id.bucket, id.key) in m ==>
      var e := m[EntryKey(id.bucket, id.key)];
      var j := LastPut(calls, i, id);
      && Id(e) == id && j >= 0 && (forall k :: j < k < i ==> !Drops(calls[k], id))
      && e.etag == calls[j].etag && e.size == calls[j].size && e.cachedAt == calls[j].now
  {
    hide EntryKey;
    var k := EntryKey(id.bucket, id.key);
    if k in m {
      assert MadeBy(calls, i, m[k]);
      EntryKeyDetermines(m[k].bucket, m[k].key, id.bucket, id.key);
    }
  }

  // Rows that are as they were but for their last use stay made, and so does the one that is put.
  lemma RowsStayMade(calls: seq<Call>, i: nat, m: Entries, m': Entries)
    requires i < |calls| && ProperCall(calls[i]) && AllMade(calls, i, m)
    requires forall k <- m' ::
      || (k in m && m'[k] == m[k].(lastAccessed := m'[k].lastAccessed)
          && !PutsRow(calls[i], k) && !DropsRow(calls[i], k))
      || (PutsRow(calls[i], k) && m'[k] == RowOf(calls[i]))
    ensures AllMade(calls, i + 1, m')
  {
    hide EntryKey;
    forall k <- m' ensures MadeBy(calls, i + 1, m'[k]) && k == EntryKey(m'[k].bucket, m'[k].key) {
      if !PutsRow(calls[i], k) {
        assert MadeBy(calls, i, m[k]);
      }
    }
  }

  predicate PutsRow(c: Call, k: string) {
    c.DoPut? && c.fileOk && c.rowOk && k == EntryKey(c.id.bucket, c.id.key)
  }

  predicate DropsRow(c: Call, k: string) {
    c.DoInvalidate? && c.rowOk && k == EntryKey(c.id.bucket, c.id.key)
  }

  function RowOf(c: Call): CacheEntry
    requires c.DoPut?
  {
    CacheEntry(c.id.bucket, c.id.key, c.etag, c.size, c.modified, c.now, c.now)
  }
}
