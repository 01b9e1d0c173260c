/**
 The disk cache (internal/cache): a metadata database over files, a manager that keeps the two in
 step, and an evictor that deletes the least recently used entries. Operations here run one after
 the other; their interleavings are in EvictionRaces, those on a single file in AtomicFiles.
 */

// Sums of sizes, and the order of use.
module CacheEntries {
  import opened Keys

  datatype CacheEntry = CacheEntry(
    bucket: string, key: string, etag: string, size: nat,
    lastModified: int, lastAccessed: int, cachedAt: int)

  // The database's key for an object.
  function EntryKey(bucket: string, key: string): string {
    bucket + "/" + key
  }

  type Entries = map<string, CacheEntry>

  predicate Filed(m: Entries) {
    forall k <- m :: k == EntryKey(m[k].bucket, m[k].key)
  }

  // S3 bucket names have no slash, so no two objects share a key.
  lemma EntryKeyDetermines(b: string, k: string, c: string, l: string)
    requires NoSlash(b) && NoSlash(c)
    ensures EntryKey(b, k) == EntryKey(c, l) <==> b == c && k == l
  {
    var x, y := EntryKey(b, k), EntryKey(c, l);
    assert x[|b|] == '/' && y[|c|] == '/';
    assert forall i :: 0 <= i < |b| ==> x[i] == b[i];
    assert forall i :: 0 <= i < |c| ==> y[i] == c[i];
    if x == y {
      assert |b| == |c|;
      assert b == x[..|b|] && c == y[..|c|] && k == x[|b| + 1..] && l == y[|c| + 1..];
    }
  }

  ghost function Sum(m: Entries): nat {
    if m == map[] then 0
    else
      var k :| k in m;
      m[k].size + Sum(m - {k})
  }

  lemma {:induction false} SumWithout(m: Entries, k: string)
    requires k in m
    ensures Sum(m) == m[k].size + Sum(m - {k})
    decreases |m|
  {
    var j :| j in m && Sum(m) == m[j].size + Sum(m - {j});
    if j != k {
      SumWithout(m - {j}, k);
      SumWithout(m - {k}, j);
      assert m - {j} - {k} == m - {k} - {j};
    }
  }

  // The listing that eviction works from: entries by time of last use, each once; what is left
  // out was used no earlier than anything listed, and something is only if the list is full.
  ghost predicate IsLeastRecent(m: Entries, es: seq<CacheEntry>, limit: nat) {
    && (forall i ::
          0 <= i < |es| ==> EntryKey(es[i].bucket, es[i].key) in m && m[EntryKey(es[i].bucket, es[i].key)] == es[i])
    && (forall i, j :: 0 <= i < j < |es| ==> es[i].lastAccessed <= es[j].lastAccessed && es[i] != es[j])
    && (forall k <- m :: m[k] in es || forall e <- es :: e.lastAccessed <= m[k].lastAccessed)
    && |es| == if |m| <= limit then |m| else limit
  }

  function KeysOf(es: seq<CacheEntry>): set<string> {
    set e <- es :: EntryKey(e.bucket, e.key)
  }
}

module DiskCache {
  import opened Ids
  import opened Keys
  import opened Buffers
  import opened CacheEntries

  // DiskStore.Path hashes the key with SHA-256 below the bucket's directory: one path per object.
  type Files = map<ObjKey, Bytes>

  class MetadataStore {
    var entries: Entries

    constructor ()
      ensures entries == map[]
    {
      entries := map[];
    }

    function Get(bucket: string, key: string): Option<CacheEntry>
      reads this
    {
      if EntryKey(bucket, key) in entries then Some(entries[EntryKey(bucket, key)]) else None
    }

    method Put(e: CacheEntry)
      modifies this
      ensures entries == old(entries)[EntryKey(e.bucket, e.key) := e]
    {
      entries := entries[EntryKey(e.bucket, e.key) := e];
    }

    method Delete(bucket: string, key: string)
      modifies this
      ensures entries == old(entries) - {EntryKey(bucket, key)}
    {
      entries := entries - {EntryKey(bucket, key)};
    }

    // Only the time of last use changes: an entry's age for the TTL does not.
    method Touch(now: int, bucket: string, key: string)
      modifies this
      ensures var k := EntryKey(bucket, key);
        entries == if k in old(entries) then old(entries)[k := old(entries)[k].(lastAccessed := now)] else old(entries)
    {
      var k := EntryKey(bucket, key);
      if k in entries {
        entries := entries[k := entries[k].(lastAccessed := now)];
      }
    }

    method TotalSize() returns (total: nat)
      ensures total == Sum(entries)
    {
      total := 0;
      var left := entries.Keys;
      ghost var rest := entries;
      while left != {}
        invariant rest.Keys == left && left <= entries.Keys && forall k <- left :: rest[k] == entries[k]
        invariant total + Sum(rest) == Sum(entries)
        decreases |left|
      {
        var k :| k in left;
        SumWithout(rest, k);
        total := total + entries[k].size;
        left, rest := left - {k}, rest - {k};
      }
    }

    method ListByLastAccessed(limit: nat) returns (es: seq<CacheEntry>)
      requires Filed(entries)
      ensures IsLeastRecent(entries, es, limit)
    {
      es := [];
      var left := entries.Keys;
      while left != {}
        invariant SortedSoFar(entries, es, left)
        decreases |left|
      {
        ghost var _ := Oldest(entries, left);
        var k :| k in left && forall j <- left :: entries[k].lastAccessed <= entries[j].lastAccessed;
        SortedNext(entries, es, left, k);
        es := es + [entries[k]];
        left := left - {k};
      }
      SortedAll(entries, es, limit);
      if |es| > limit {
        es := es[..limit];
      }
    }
  }

  // es is in order, left has what comes later, and together they are the entries.
  ghost predicate SortedSoFar(m: Entries, es: seq<CacheEntry>, left: set<string>) {
    && left <= m.Keys && |es| + |left| == |m|
    && (forall i ::
          0 <= i < |es| ==>
            EntryKey(es[i].bucket, es[i].key) in m.Keys - left && m[EntryKey(es[i].bucket, es[i].key)] == es[i])
    && (forall i, j :: 0 <= i < j < |es| ==> es[i].lastAccessed <= es[j].lastAccessed && es[i] != es[j])
    && (forall e <- es, k <- left :: e.lastAccessed <= m[k].lastAccessed)
    && (forall k <- m :: k in left || m[k] in es)
  }

  lemma {:induction false} Oldest(m: Entries, left: set<string>) returns (k: string)
    requires left != {} && left <= m.Keys
    ensures k in left && forall j <- left :: m[k].lastAccessed <= m[j].lastAccessed
    decreases |left|
  {
    k :| k in left;
    var rest := left - {k};
    if rest == {} {
      assert left == {k};
    } else {
      var j := Oldest(m, rest);
      if m[j].lastAccessed < m[k].lastAccessed {
        k := j;
      }
    }
  }

  lemma SortedNext(m: Entries, es: seq<CacheEntry>, left: set<string>, k: string)
    requires Filed(m) && SortedSoFar(m, es, left) && k in left && forall j <- left ::
      m[k].lastAccessed <= m[j].lastAccessed
    ensures SortedSoFar(m, es + [m[k]], left - {k})
  {
    assert forall i :: 0 <= i < |es| ==> es[i] in es;
  }

  lemma SortedAll(m: Entries, es: seq<CacheEntry>, limit: nat)
    requires SortedSoFar(m, es, {})
    ensures IsLeastRecent(m, if |es| > limit then es[..limit] else es, limit)
  {
    hide EntryKey;
    var cut := if |es| > limit then es[..limit] else es;
    assert forall i :: 0 <= i < |cut| ==> cut[i] == es[i];
    forall k <- m ensures m[k] in cut || forall e <- cut :: e.lastAccessed <= m[k].lastAccessed {
      var j :| 0 <= j < |es| && es[j] == m[k];
      NotCut(es, cut, j);
    }
  }

  lemma NotCut(es: seq<CacheEntry>, cut: seq<CacheEntry>, j: nat)
    requires cut <= es && j < |es|
    requires forall i, j :: 0 <= i < j < |es| ==> es[i].lastAccessed <= es[j].lastAccessed
    ensures es[j] in cut || forall e <- cut :: e.lastAccessed <= es[j].lastAccessed
  {
    if j < |cut| {
      assert cut[j] == es[j];
    } else {
      forall e <- cut ensures e.lastAccessed <= es[j].lastAccessed {
        var i :| 0 <= i < |cut| && cut[i] == e;
        assert es[i] == e;
      }
    }
  }

  class DiskStore {
    var files: Files

    constructor ()
      ensures files == map[]
    {
      files := map[];
    }

    predicate Exists(bucket: string, key: string)
      reads this
    {
      ObjKey(bucket, key) in files
    }

    // Temp file, then rename: the file is replaced as a whole or not at all.
    method Write(bucket: string, key: string, content: Bytes, works: bool) returns (ok: bool)
      modifies this
      ensures ok == works && files == if works then old(files)[ObjKey(bucket, key) := content] else old(files)
    {
      if works {
        files := files[ObjKey(bucket, key) := content];
      }
      ok := works;
    }

    method Delete(bucket: string, key: string, works: bool) returns (ok: bool)
      modifies this
      ensures ok <==> works && ObjKey(bucket, key) in old(files)
      ensures files == if ok then old(files) - {ObjKey(bucket, key)} else old(files)
    {
      ok := works && ObjKey(bucket, key) in files;
      if ok {
        files := files - {ObjKey(bucket, key)};
      }
    }
  }

  // Which removals the file system or the database refuses.
  datatype Faults = Faults(file: set<ObjKey>, row: set<ObjKey>)

  function Id(e: CacheEntry): ObjKey {
    ObjKey(e.bucket, e.key)
  }

  predicate FileGoes(files: Files, f: Faults, e: CacheEntry) {
    Id(e) in files && Id(e) !in f.file
  }

  // Both its file and its row go.
  predicate Goes(files: Files, f: Faults, e: CacheEntry) {
    FileGoes(files, f, e) && Id(e) !in f.row
  }

  // Of the entries tried, those that go.
  function Evicted(files: Files, f: Faults, es: seq<CacheEntry>): set<string> {
    set e <- es | Goes(files, f, e) :: EntryKey(e.bucket, e.key)
  }

  function Unlinked(files: Files, f: Faults, es: seq<CacheEntry>): set<ObjKey> {
    set e <- es | FileGoes(files, f, e) :: Id(e)
  }

  class Evictor {
    const meta: MetadataStore
    const store: DiskStore
    const maxSize: nat

    constructor (meta: MetadataStore, store: DiskStore, maxSize: nat)
      ensures this.meta == meta && this.store == store && this.maxSize == maxSize
    {
      this.meta, this.store, this.maxSize := meta, store, maxSize;
    }

    function HighWater(): nat {
      maxSize * 9 / 10
    }

    function Target(): nat {
      maxSize * 8 / 10
    }

    // Nothing at or below high water. Above it, the least recently used entries in order, until
    // the total is down to the target or the listed hundred have all been tried; the last one
    // tried was still needed. A removal that fails is passed over.
    method EvictOnce(faults: Faults) returns (total: int, ghost es: seq<CacheEntry>, ghost n: nat)
      requires Filed(meta.entries)
      modifies meta, store
      ensures Filed(meta.entries) && total == Sum(meta.entries)
      ensures Sum(old(meta.entries)) <= maxSize * 9 / 10 ==>
        n == 0 && es == [] && meta.entries == old(meta.entries) && store.files == old(store.files)
      ensures Sum(old(meta.entries)) > maxSize * 9 / 10 ==>
        IsLeastRecent(old(meta.entries), es, 100) && (n == |es| || total <= maxSize * 8 / 10)
      ensures n <= |es|
      ensures meta.entries == old(meta.entries) - Evicted(old(store.files), faults, es[..n])
      ensures store.files == old(store.files) - Unlinked(old(store.files), faults, es[..n])
      ensures forall j: nat ::
        j < n ==> Sum(old(meta.entries) - Evicted(old(store.files), faults, es[..j])) > maxSize * 8 / 10
      ensures Sum(old(meta.entries)) > maxSize * 9 / 10 ==>
        (meta.entries == old(meta.entries) <==> forall x <- es :: !Goes(old(store.files), faults, x))
    {
      hide IsLeastRecent, EntryKey, Tried, Sum, Evicted, Unlinked;
      es, n := [], 0;
      NothingTried(meta.entries, store.files, faults, [], Target());
      total := meta.TotalSize();
      if total <= HighWater() {
        TriedMeans(old(meta.entries), old(store.files), meta.entries, store.files, faults, es, n, Target());
        return;
      }
      var entries := meta.ListByLastAccessed(100);
      es := entries;
      NothingTried(meta.entries, store.files, faults, es, Target());
      for i := 0 to |entries|
        invariant n == i && total == Sum(meta.entries) && Filed(meta.entries)
        invariant Tried(old(meta.entries), old(store.files), meta.entries, store.files, faults, es, n, Target())
      {
        if total <= Target() {
          break;
        }
        var e := entries[i];
        TriedNext(old(meta.entries), old(store.files), meta.entries, store.files, faults, es, n, Target());
        n := n + 1;
        var ok := store.Delete(e.bucket, e.key, Id(e) !in faults.file);
        if !ok {
          continue;
        }
        if Id(e) in faults.row {
          continue;
        }
        SumWithout(meta.entries, EntryKey(e.bucket, e.key));
        meta.Delete(e.bucket, e.key);
        total := total - e.size;
      }
      TriedMeans(old(meta.entries), old(store.files), meta.entries, store.files, faults, es, n, Target());
      StuckExactly(old(meta.entries), old(store.files), faults, es, n, Target());
    }
  }

  // Eviction makes no progress exactly when not one of the listed entries can go, for want of its
  // file or because a removal fails: then all of them are tried in vain.
  lemma StuckExactly(m: Entries, files: Files, f: Faults, es: seq<CacheEntry>, n: nat, target: nat)
    requires IsLeastRecent(m, es, 100) && n <= |es| && Sum(m) > target
    requires n == |es| || Sum(m - Evicted(files, f, es[..n])) <= target
    ensures m - Evicted(files, f, es[..n]) == m <==> forall x <- es :: !Goes(files, f, x)
  {
    hide EntryKey, Sum;
    if m - Evicted(files, f, es[..n]) == m {
      assert es[..n] == es;
      forall x <- es ensures !Goes(files, f, x) {
        var k := EntryKey(x.bucket, x.key);
        assert k in m - Evicted(files, f, es[..n]);
      }
    } else {
      var k :| k in m && k in Evicted(files, f, es[..n]);
      var x :| x in es[..n] && Goes(files, f, x) && EntryKey(x.bucket, x.key) == k;
      assert x in es;
    }
  }

  // The first n listed have been tried, each because the total was still above the target.
  ghost predicate Tried(m: Entries, files: Files, m': Entries, files': Files, f: Faults, es: seq<CacheEntry>, n: nat,
                        target: nat) {
    && n <= |es|
    && m' == m - Evicted(files, f, es[..n]) && files' == files - Unlinked(files, f, es[..n])
    && forall j: nat :: j < n ==> Sum(m - Evicted(files, f, es[..j])) > target
  }

  lemma TriedMeans(m: Entries, files: Files, m': Entries, files': Files, f: Faults, es: seq<CacheEntry>, n: nat,
                   target: nat)
    requires Tried(m, files, m', files', f, es, n, target)
    ensures n <= |es|
    ensures m' == m - Evicted(files, f, es[..n]) && files' == files - Unlinked(files, f, es[..n])
    ensures forall j: nat :: j < n ==> Sum(m - Evicted(files, f, es[..j])) > target
  {
  }

  lemma NothingTried(m: Entries, files: Files, f: Faults, es: seq<CacheEntry>, target: nat)
    ensures Tried(m, files, m, files, f, es, 0, target)
  {
    assert es[..0] == [];
  }

  lemma TriedNext(m: Entries, files: Files, m': Entries, files': Files, f: Faults, es: seq<CacheEntry>, n: nat,
                  target: nat)
    requires Tried(m, files, m', files', f, es, n, target) && n < |es| && Sum(m') > target
    requires Filed(m) && IsLeastRecent(m, es, 100)
    ensures var k := EntryKey(es[n].bucket, es[n].key);
      && k in m' && m'[k] == es[n]
      && Tried(m, files, m', files', f, es, n, target)
      && if Id(es[n]) in files' && Id(es[n]) !in f.file then
           Tried(m, files, if Id(es[n]) in f.row then m' else m' - {k}, files' - {Id(es[n])}, f, es, n + 1, target)
         else Tried(m, files, m', files', f, es, n + 1, target)
  {
    hide Sum, IsLeastRecent, Evicted, Unlinked;
    TryNext(m, files, f, es, n);
    TryLater(m, files, f, es, n);
  }

  lemma TryLater(m: Entries, files: Files, f: Faults, es: seq<CacheEntry>, i: nat)
    requires i < |es|
    ensures var k := EntryKey(es[i].bucket, es[i].key);
      m - (Evicted(files, f, es[..i]) + {k}) == m - Evicted(files, f, es[..i]) - {k}
    ensures files - (Unlinked(files, f, es[..i]) + {Id(es[i])}) == files - Unlinked(files, f, es[..i]) - {Id(es[i])}
  {
  }

  // Entry i is still there when its turn comes.
  lemma TryNext(m: Entries, files: Files, f: Faults, es: seq<CacheEntry>, i: nat)
    requires Filed(m) && IsLeastRecent(m, es, 100) && i < |es|
    ensures var k := EntryKey(es[i].bucket, es[i].key);
      && k in m && m[k] == es[i] && k !in Evicted(files, f, es[..i]) && Id(es[i]) !in Unlinked(files, f, es[..i])
      && Evicted(files, f, es[..i + 1]) == Evicted(files, f, es[..i]) + (if Goes(files, f, es[i]) then {k} else {})
      && Unlinked(files, f, es[..i + 1]) ==
         Unlinked(files, f, es[..i]) + (if FileGoes(files, f, es[i]) then {Id(es[i])} else {})
  {
    assert es[..i + 1] == es[..i] + [es[i]];
    forall e <- es[..i] ensures EntryKey(e.bucket, e.key) != EntryKey(es[i].bucket, es[i].key) {
      var j :| 0 <= j < i && es[j] == e;
    }
  }

  // ---------------------------------------------------------------- eviction gets there

  const NO_FAULTS: Faults := Faults({}, {})

  ghost predicate AllHaveFiles(m: Entries, files: Files) {
    forall k <- m :: Id(m[k]) in files
  }

  lemma KeysOfNext(es: seq<CacheEntry>, n: nat)
    requires n < |es|
    ensures KeysOf(es[..n + 1]) == KeysOf(es[..n]) + {EntryKey(es[n].bucket, es[n].key)}
  {
    hide EntryKey;
    assert es[..n + 1] == es[..n] + [es[n]];
  }

  lemma NewKey(m: Entries, es: seq<CacheEntry>, limit: nat, n: nat)
    requires IsLeastRecent(m, es, limit) && n < |es|
    ensures var k := EntryKey(es[n].bucket, es[n].key); k in m && k !in KeysOf(es[..n])
  {
    hide EntryKey;
    forall e <- es[..n] ensures EntryKey(e.bucket, e.key) != EntryKey(es[n].bucket, es[n].key) {
      var j :| 0 <= j < n && es[j] == e;
    }
  }

  lemma {:induction false} KeysCount(m: Entries, es: seq<CacheEntry>, limit: nat, n: nat)
    requires IsLeastRecent(m, es, limit) && n <= |es|
    ensures |KeysOf(es[..n])| == n && KeysOf(es[..n]) <= m.Keys
  {
    hide EntryKey, IsLeastRecent, KeysOf;
    if n == 0 {
      NoKeys(es);
    } else {
      KeysCount(m, es, limit, n - 1);
      KeysOfNext(es, n - 1);
      NewKey(m, es, limit, n - 1);
    }
  }

  lemma NoKeys(es: seq<CacheEntry>)
    ensures KeysOf(es[..0]) == {}
  {
    assert es[..0] == [];
  }

  lemma AllEvicted(m: Entries, files: Files, es: seq<CacheEntry>)
    requires AllHaveFiles(m, files) && forall e <- es ::
      EntryKey(e.bucket, e.key) in m && m[EntryKey(e.bucket, e.key)] == e
    ensures Evicted(files, NO_FAULTS, es) == KeysOf(es)
  {
    forall e <- es ensures Goes(files, NO_FAULTS, e) {
      assert Id(m[EntryKey(e.bucket, e.key)]) in files;
    }
  }

  // Where nothing fails, trying all that is listed takes a hundred entries away, or all there are.
  lemma AllTried(m: Entries, files: Files, es: seq<CacheEntry>)
    requires Filed(m) && AllHaveFiles(m, files) && IsLeastRecent(m, es, 100)
    ensures |m - Evicted(files, NO_FAULTS, es)| == if |m| <= 100 then 0 else |m| - 100
  {
    assert es[..|es|] == es;
    KeysCount(m, es, 100, |es|);
    AllEvicted(m, files, es);
    CountWithout(m, KeysOf(es));
  }

  lemma CountWithout(m: Entries, ks: set<string>)
    requires ks <= m.Keys
    ensures |m - ks| == |m| - |ks|
  {
    assert (m - ks).Keys == m.Keys - ks;
    assert |(m - ks).Keys| == |m - ks|;
    assert |m.Keys| == |m|;
  }

  lemma FilesStay(m: Entries, files: Files, es: seq<CacheEntry>)
    requires Filed(m) && AllHaveFiles(m, files)
    ensures AllHaveFiles(m - Evicted(files, NO_FAULTS, es), files - Unlinked(files, NO_FAULTS, es))
  {
    var m' := m - Evicted(files, NO_FAULTS, es);
    forall k <- m' ensures Id(m'[k]) in files - Unlinked(files, NO_FAULTS, es) {
      assert forall e <- es :: Id(e) == Id(m[k]) ==> EntryKey(e.bucket, e.key) == k;
    }
  }

  // ceil(n / 100) calls bring n entries down to high water.
  method EvictRepeatedly(e: Evictor, calls: nat)
    requires Filed(e.meta.entries) && AllHaveFiles(e.meta.entries, e.store.files)
    modifies e.meta, e.store
    ensures 100 * calls >= |old(e.meta.entries)| ==> Sum(e.meta.entries) <= e.maxSize * 9 / 10
  {
    hide AllHaveFiles, IsLeastRecent, Evicted, Unlinked, Filed;
    for i := 0 to calls
      invariant Filed(e.meta.entries) && AllHaveFiles(e.meta.entries, e.store.files)
      invariant Sum(e.meta.entries) <= e.HighWater() || |e.meta.entries| + 100 * i <= |old(e.meta.entries)|
    {
      ghost var m, files := e.meta.entries, e.store.files;
      ghost var es, n;
      var total;
      total, es, n := e.EvictOnce(NO_FAULTS);
      FilesStay(m, files, es[..n]);
      if n == |es| && Sum(m) > e.HighWater() {
        assert es[..n] == es;
        AllTried(m, files, es);
        SumOfNothing();
      }
    }
    SumOfNothing();
  }

  lemma SumOfNothing()
    ensures Sum(map[]) == 0 && forall m: Entries :: |m| == 0 ==> Sum(m) == 0
  {
    assert forall m: Entries :: |m| == 0 ==> m == map[];
  }

  // ---------------------------------------------------------------- the manager

  datatype GetResult = Miss | Hit(entry: CacheEntry, valid: bool) | DbError

  // An entry may be served without asking S3: always if nobody else writes, else within its TTL.
  predicate IsValid(e: CacheEntry, now: int, ttl: int, soleWriter: bool) {
    soleWriter || now - e.cachedAt <= ttl
  }

  // Files and rows name the same objects, and sizes are lengths.
  ghost predicate Agree(m: Entries, files: Files) {
    && Filed(m)
    && (forall k <- m :: NoSlash(m[k].bucket) && Id(m[k]) in files && m[k].size == |files[Id(m[k])]|)
    && (forall id <- files :: NoSlash(id.bucket) && EntryKey(id.bucket, id.key) in m)
  }

  class Manager {
    const meta: MetadataStore
    const store: DiskStore
    const evictor: Evictor

    constructor (maxSize: nat)
      ensures fresh(meta) && fresh(store) && fresh(evictor) && evictor.meta == meta && evictor.store == store
      ensures evictor.maxSize == maxSize
      ensures Agree(meta.entries, store.files) && meta.entries == map[]
    {
      var m := new MetadataStore();
      var s := new DiskStore();
      meta, store := m, s;
      evictor := new Evictor(m, s, maxSize);
    }

    // A row whose file has gone is dropped on sight. Only a valid hit counts as a use.
    method Get(now: int, bucket: string, key: string, ttl: int, soleWriter: bool, dbOk: bool, rowOk: bool)
      returns (r: GetResult)
      modifies meta
      ensures !dbOk ==> r == DbError && meta.entries == old(meta.entries)
      ensures dbOk ==>
        var k := EntryKey(bucket, key);
        if k !in old(meta.entries) then r == Miss && meta.entries == old(meta.entries)
        else if ObjKey(bucket, key) !in store.files then
          r == Miss && meta.entries == if rowOk then old(meta.entries) - {k} else old(meta.entries)
        else
          var e := old(meta.entries)[k];
          && r == Hit(e, IsValid(e, now, ttl, soleWriter))
          && meta.entries ==
            if r.valid && rowOk then old(meta.entries)[k := e.(lastAccessed := now)] else old(meta.entries)
      ensures old(Agree(meta.entries, store.files)) && NoSlash(bucket) ==> Agree(meta.entries, store.files)
    {
      if !dbOk {
        return DbError;
      }
      if NoSlash(bucket) && Agree(meta.entries, store.files) && EntryKey(bucket, key) in meta.entries {
        var e := meta.entries[EntryKey(bucket, key)];
        EntryKeyDetermines(e.bucket, e.key, bucket, key);
      }
      var entry := meta.Get(bucket, key);
      if entry.None? {
        return Miss;
      }
      if !store.Exists(bucket, key) {
        if rowOk { meta.Delete(bucket, key); }
        return Miss;
      }
      if soleWriter {
        if rowOk { meta.Touch(now, bucket, key); }
        return Hit(entry.value, true);
      }
      if now - entry.value.cachedAt > ttl {
        return Hit(entry.value, false);
      }
      if rowOk { meta.Touch(now, bucket, key); }
      r := Hit(entry.value, true);
    }

    // The file, then the row; whether eviction is set off.
    method Put(now: int, bucket: string, key: string, content: Bytes, etag: string, size: nat, modified: int,
               fileOk: bool, rowOk: bool)
      returns (ok: bool, trigger: bool)
      modifies meta, store
      ensures ok <==> fileOk && rowOk
      ensures store.files == if fileOk then old(store.files)[ObjKey(bucket, key) := content] else old(store.files)
      ensures meta.entries ==
        if ok then old(meta.entries)[EntryKey(bucket, key) := CacheEntry(bucket, key, etag, size, modified, now, now)]
        else old(meta.entries)
      ensures trigger <==> ok && Sum(meta.entries) > evictor.maxSize * 9 / 10
      ensures old(Agree(meta.entries, store.files)) && NoSlash(bucket) && size == |content| && (fileOk ==> rowOk) ==>
        Agree(meta.entries, store.files)
    {
      trigger := false;
      var written := store.Write(bucket, key, content, fileOk);
      if !written || !rowOk {
        return false, false;
      }
      meta.Put(CacheEntry(bucket, key, etag, size, modified, now, now));
      if old(Agree(meta.entries, store.files)) && NoSlash(bucket) && size == |content| {
        PutAgrees(old(meta.entries), old(store.files), CacheEntry(bucket, key, etag, size, modified, now, now),
                  content);
      }
      var total := meta.TotalSize();
      trigger := total > evictor.maxSize * 9 / 10;
      ok := true;
    }

    // A missing file is no obstacle.
    method Invalidate(bucket: string, key: string, fileOk: bool, rowOk: bool) returns (ok: bool)
      modifies meta, store
      ensures ok == rowOk
      ensures store.files == if fileOk then old(store.files) - {ObjKey(bucket, key)} else old(store.files)
      ensures meta.entries == if rowOk then old(meta.entries) - {EntryKey(bucket, key)} else old(meta.entries)
      ensures old(Agree(meta.entries, store.files)) && NoSlash(bucket) && fileOk && rowOk ==>
        Agree(meta.entries, store.files)
    {
      var _ := store.Delete(bucket, key, fileOk);
      if rowOk {
        meta.Delete(bucket, key);
      }
      ok := rowOk;
      if old(Agree(meta.entries, store.files)) && NoSlash(bucket) && fileOk && rowOk {
        InvalidateAgrees(old(meta.entries), old(store.files), bucket, key);
      }
    }
  }

  lemma PutAgrees(m: Entries, files: Files, e: CacheEntry, content: Bytes)
    requires Agree(m, files) && NoSlash(e.bucket) && e.size == |content|
    ensures Agree(m[EntryKey(e.bucket, e.key) := e], files[Id(e) := content])
  {
    hide EntryKey;
    forall k <- m | k != EntryKey(e.bucket, e.key) ensures Id(m[k]) != Id(e) {
    }
  }

  lemma InvalidateAgrees(m: Entries, files: Files, bucket: string, key: string)
    requires Agree(m, files) && NoSlash(bucket)
    ensures Agree(m - {EntryKey(bucket, key)}, files - {ObjKey(bucket, key)})
  {
    hide EntryKey;
    forall k <- m | k != EntryKey(bucket, key) ensures Id(m[k]) != ObjKey(bucket, key) {
    }
    forall id <- files | id != ObjKey(bucket, key) ensures EntryKey(id.bucket, id.key) != EntryKey(bucket, key) {
      EntryKeyDetermines(id.bucket, id.key, bucket, key);
    }
  }

  // ---------------------------------------------------------------- the total is what is on disk

  ghost function OnDisk(files: Files): nat {
    if files == map[] then 0
    else
      var id :| id in files;
      |files[id]| + OnDisk(files - {id})
  }

  lemma {:induction false} OnDiskWithout(files: Files, id: ObjKey)
    requires id in files
    ensures OnDisk(files) == |files[id]| + OnDisk(files - {id})
    decreases |files|
  {
    var j :| j in files && OnDisk(files) == |files[j]| + OnDisk(files - {j});
    if j != id {
      OnDiskWithout(files - {j}, id);
      OnDiskWithout(files - {id}, j);
      assert files - {j} - {id} == files - {id} - {j};
    }
  }

  // While files and rows agree, TotalSize is the number of bytes on disk.
  lemma {:induction false} TotalIsOnDisk(m: Entries, files: Files)
    requires Agree(m, files)
    ensures Sum(m) == OnDisk(files)
    decreases |m|
  {
    if m == map[] {
      assert files == map[] by { assert forall id :: id !in files; }
    } else {
      var k :| k in m;
      var e := m[k];
      SumWithout(m, k);
      OnDiskWithout(files, Id(e));
      InvalidateAgrees(m, files, e.bucket, e.key);
      TotalIsOnDisk(m - {k}, files - {Id(e)});
    }
  }

  // Eviction without faults keeps the agreement.
  lemma EvictionAgrees(m: Entries, files: Files, es: seq<CacheEntry>)
    requires Agree(m, files) && forall e <- es :: EntryKey(e.bucket, e.key) in m && m[EntryKey(e.bucket, e.key)] == e
    ensures Agree(m - Evicted(files, NO_FAULTS, es), files - Unlinked(files, NO_FAULTS, es))
  {
    var m', files' := m - Evicted(files, NO_FAULTS, es), files - Unlinked(files, NO_FAULTS, es);
    FilesStay(m, files, es);
    forall id <- files' ensures EntryKey(id.bucket, id.key) in m' {
      forall e <- es | EntryKey(e.bucket, e.key) == EntryKey(id.bucket, id.key) ensures Id(e) == id {
        EntryKeyDetermines(e.bucket, e.key, id.bucket, id.key);
      }
    }
  }
}
