/**
 What a read returns (Read, fetchFromS3AndCache and syncUpload in internal/fuse/handle.go; Unlink
 and Rename in internal/fuse/dir.go), over the disk cache and S3, one call after the other. S3 calls
 may fail; operations on the local cache succeed.
 */
module Freshness {
  import opened Ids
  import opened Keys
  import opened Buffers
  import opened CacheEntries
  import opened DiskCache

  datatype Blob = Blob(content: Bytes, etag: string)

  // An object that S3 has had under a key at some time.
  datatype Version = Version(key: string, obj: Blob)

  datatype OpenFile = OpenFile(key: string, tmp: Bytes, dirty: bool)

  // Where the bytes of a read came from.
  datatype Source = Buffer | Cache | Validated(etag: string, byHead: bool) | Fetched

  datatype ReadResult = Data(bytes: Bytes, source: Source) | ReadError

  // How a read on a clean handle is to be answered: from a cached copy that is valid, or expired
  // but known to be current, else by a GET.
  function SourceOf(copy: Option<CacheEntry>, now: int, ttl: int, soleWriter: bool, world: ReadWorld,
                    current: Option<Blob>): Source {
    var row := if world.rowEtag.Some? then world.rowEtag.value else "";
    var head := if world.headOk && current.Some? then current.value.etag else "";
    if copy.None? then Fetched
    else if IsValid(copy.value, now, ttl, soleWriter) then Cache
    else if row != "" then (if row == copy.value.etag then Validated(row, false) else Fetched)
    else if head != "" && head == copy.value.etag then Validated(head, true)
    else Fetched
  }

  // S3's and the catalog's answers during a read: the row's ETag, if there is a row.
  datatype ReadWorld = ReadWorld(rowEtag: Option<string>, headOk: bool, getOk: bool, modified: int)

  // An ETag stands for its bytes.
  ghost predicate EtagsTell(versions: set<Version>) {
    forall v <- versions, w <- versions ::
      v.key == w.key && v.obj.etag == w.obj.etag && v.obj.etag != "" ==> v.obj.content == w.obj.content
  }

  // Every cached file, but for these keys, is S3's current object.
  ghost predicate Fresh(files: Files, bucket: string, s3: map<string, Blob>, but: set<string>) {
    forall id <- files :: id.bucket == bucket && id.key !in but ==> id.key in s3 && files[id] == s3[id.key].content
  }

  // A row with an ETag says truly whose bytes the file holds.
  ghost predicate Labelled(m: Entries, files: Files, bucket: string, versions: set<Version>) {
    forall k <- m :: m[k].bucket == bucket && m[k].etag != "" ==>
      Id(m[k]) in files && Version(m[k].key, Blob(files[Id(m[k])], m[k].etag)) in versions
  }

  class Mount {
    const bucket: string
    const ttl: int
    const soleWriter: bool
    const cache: Manager
    var s3: map<string, Blob>
    var handles: map<nat, OpenFile>
    ghost var versions: set<Version>

    ghost predicate Valid()
      reads this, cache.meta, cache.store
    {
      && NoSlash(bucket)
      && Agree(cache.meta.entries, cache.store.files)
      && Labelled(cache.meta.entries, cache.store.files, bucket, versions)
      && (forall k <- s3 :: Version(k, s3[k]) in versions)
      && cache.evictor.meta == cache.meta && cache.evictor.store == cache.store
    }

    ghost predicate CacheFresh()
      reads this, cache.store
    {
      Fresh(cache.store.files, bucket, s3, {})
    }

    constructor (bucket: string, ttl: int, soleWriter: bool, maxSize: nat)
      requires NoSlash(bucket)
      ensures Valid() && CacheFresh() && fresh(cache) && fresh(cache.meta) && fresh(cache.store)
      ensures this.bucket == bucket && this.ttl == ttl && this.soleWriter == soleWriter
      ensures cache.evictor.maxSize == maxSize
      ensures s3 == map[] && handles == map[]
    {
      this.bucket, this.ttl, this.soleWriter := bucket, ttl, soleWriter;
      var c := new Manager(maxSize);
      cache := c;
      s3, handles, versions := map[], map[], {};
    }

    // The cached copy of an object, if both its row and its file are there.
    function Copy(key: string): Option<CacheEntry>
      reads this, cache.meta, cache.store
    {
      if ObjKey(bucket, key) in cache.store.files then cache.meta.Get(bucket, key) else None
    }

    // For eviction this object was used at this moment.
    predicate UsedAt(key: string, now: int)
      reads this, cache.meta
    {
      var row := cache.meta.Get(bucket, key);
      row.Some? && row.value.lastAccessed == now
    }

    method OpenHandle(h: nat, key: string)
      requires Valid() && h !in handles
      modifies this`handles
      ensures Valid() && handles == old(handles)[h := OpenFile(key, [], false)]
    {
      handles := handles[h := OpenFile(key, [], false)];
    }

    method Write(h: nat, w: Write)
      requires Valid() && h in handles
      modifies this`handles
      ensures Valid()
      ensures handles == old(handles)[h := OpenFile(old(handles)[h].key, WriteAt(old(handles)[h].tmp, w), true)]
    {
      var x := handles[h];
      handles := handles[h := x.(tmp := WriteAt(x.tmp, w), dirty := true)];
    }

    // Putting an object's bytes into the cache under the object's ETag.
    method CachePut(now: int, key: string, obj: Blob, modified: int)
      requires Valid() && (obj.etag != "" ==> Version(key, obj) in versions)
      modifies cache.meta, cache.store
      ensures Valid()
      ensures cache.store.files == old(cache.store.files)[ObjKey(bucket, key) := obj.content]
      ensures cache.meta.entries == old(cache.meta.entries)[EntryKey(bucket, key) :=
        CacheEntry(bucket, key, obj.etag, |obj.content|, modified, now, now)]
      ensures old(Fresh(cache.store.files, bucket, s3, {key})) && key in s3 && s3[key].content == obj.content ==>
        CacheFresh()
    {
      ghost var m, files := cache.meta.entries, cache.store.files;
      var _, _ := cache.Put(now, bucket, key, obj.content, obj.etag, |obj.content|, modified, true, true);
      PutLabelled(m, files, bucket, versions, CacheEntry(bucket, key, obj.etag, |obj.content|, modified, now, now),
                  obj.content);
    }

    method Drop(key: string)
      requires Valid()
      modifies cache.meta, cache.store
      ensures Valid() && cache.store.files == old(cache.store.files) - {ObjKey(bucket, key)}
      ensures cache.meta.entries == old(cache.meta.entries) - {EntryKey(bucket, key)}
    {
      ghost var m, files := cache.meta.entries, cache.store.files;
      var _ := cache.Invalidate(bucket, key, true, true);
      DropLabelled(m, files, bucket, versions, key);
    }

    // A dirty handle reads its own writes. A clean one is served by the cache while that is
    // valid; an expired copy is served again if the ETag known for the key is still the copy's;
    // otherwise the object is fetched.
    method Read(now: int, h: nat, off: nat, len: nat, world: ReadWorld) returns (r: ReadResult)
      requires Valid() && h in handles
      modifies cache.meta, cache.store
      ensures Valid() && (old(CacheFresh()) ==> CacheFresh())
      ensures var x := handles[h];
        && (x.dirty ==> r == Data(ReadAt(x.tmp, off, len), Buffer))
        && (r.Data? && !x.dirty ==>
              && ObjKey(bucket, x.key) in cache.store.files
              && r.bytes == ReadAt(cache.store.files[ObjKey(bucket, x.key)], off, len))
        && (r.Data? && !x.dirty && soleWriter && old(CacheFresh()) ==>
              x.key in s3 && r.bytes == ReadAt(s3[x.key].content, off, len))
        && (r.Data? && !x.dirty ==> UsedAt(x.key, now))
        && (r.Data? && r.source == Fetched ==> x.key in s3 && r.bytes == ReadAt(s3[x.key].content, off, len))
        && (r.Data? && r.source.Validated? ==> !soleWriter && r.source.etag != "" && ReadsVersion(x.key, r, off, len))
        && (r.Data? && r.source.Validated? ==>
              var row := old(cache.meta.Get(bucket, handles[h].key));
              row.Some? && row.value.etag == r.source.etag)
        && (r.Data? && r.source.Validated? && EtagsTell(versions) ==> ReadsOnlyVersion(x.key, r, off, len))
        && (r.Data? && r.source.Validated? && r.source.byHead && EtagsTell(versions) ==>
              x.key in s3 && r.bytes == ReadAt(s3[x.key].content, off, len))
        && (r.Data? && r.source.Validated? && !r.source.byHead ==> world.rowEtag == Some(r.source.etag))
        && (!x.dirty ==>
              var way := SourceOf(old(Copy(handles[h].key)), now, ttl, soleWriter, world,
                                  if x.key in s3 then Some(s3[x.key]) else None);
              && (r.Data? ==> r.source == way)
              && (r.ReadError? <==> way == Fetched && (!world.getOk || x.key !in s3)))
        && cache.store.files ==
          if r.Data? && r.source == Fetched then old(cache.store.files)[ObjKey(bucket, x.key) := s3[x.key].content]
                                else old(cache.store.files)
    {
      hide Agree, Labelled, EtagsTell, EntryKey, SourceOf, ReadAt;
      var x := handles[h];
      if x.dirty {
        return Data(ReadAt(x.tmp, off, len), Buffer);
      }
      r := ReadCached(now, x.key, off, len, world);
      if r.Data? {
        if soleWriter || r.source == Cache {
          SameBytes(x.key, r.bytes, off, len);
        } else {
          VersionIsCurrent(x.key, r, off, len);
        }
        return;
      }
      if !world.getOk || x.key !in s3 {
        return;
      }
      CachePut(now, x.key, s3[x.key], world.modified);
      r := Data(ReadAt(cache.store.files[ObjKey(bucket, x.key)], off, len), Fetched);
    }

    // The two ways to answer without a GET; ReadError if neither applies.
    method ReadCached(now: int, key: string, off: nat, len: nat, world: ReadWorld) returns (r: ReadResult)
      requires Valid()
      modifies cache.meta
      ensures Valid()
      ensures r.Data? ==>
        ObjKey(bucket, key) in cache.store.files && r.bytes == ReadAt(cache.store.files[ObjKey(bucket, key)], off, len)
      ensures r.Data? ==> r.source == Cache || (!soleWriter && r.source.Validated? && r.source.etag != "")
      ensures r.Data? ==> UsedAt(key, now)
      ensures r.Data? && r.source.Validated? ==>
        && Version(key, Blob(cache.store.files[ObjKey(bucket, key)], r.source.etag)) in versions
        && (if r.source.byHead then key in s3 && s3[key].etag == r.source.etag
            else world.rowEtag == Some(r.source.etag))
        && old(cache.meta.Get(bucket, key)).Some? && old(cache.meta.Get(bucket, key)).value.etag == r.source.etag
      ensures var way := SourceOf(old(Copy(key)), now, ttl, soleWriter, world,
                                  if key in s3 then Some(s3[key]) else None);
        if r.Data? then r.source == way else way == Fetched
    {
      hide Agree, Labelled, EtagsTell, EntryKey;
      var copy, valid := GetCopy(now, key);
      if copy.None? {
        return ReadError;
      }
      if valid {
        return Data(ReadAt(cache.store.files[ObjKey(bucket, key)], off, len), Cache);
      }
      if soleWriter {
        return ReadError;
      }
      r := Revalidate(now, key, off, len, world, copy.value);
    }

    // Manager.Get, where the local cache works.
    method GetCopy(now: int, key: string) returns (copy: Option<CacheEntry>, valid: bool)
      requires Valid()
      modifies cache.meta
      ensures Valid() && copy == old(Copy(key))
      ensures valid <==> copy.Some? && IsValid(copy.value, now, ttl, soleWriter)
      ensures copy.Some? ==>
        && ObjKey(bucket, key) in cache.store.files && cache.meta.Get(bucket, key) ==
             Some(if valid then copy.value.(lastAccessed := now) else copy.value)
    {
      hide Agree, Labelled, EtagsTell, EntryKey, Used, IsValid;
      ghost var m, files := cache.meta.entries, cache.store.files;
      var got := cache.Get(now, bucket, key, ttl, soleWriter, true, true);
      UsedCases(m, cache.meta.entries, EntryKey(bucket, key), now);
      UsedLabelled(m, cache.meta.entries, files, bucket, versions);
      copy := if got.Hit? then Some(got.entry) else None;
      valid := got.Hit? && got.valid;
    }

    // The copy has expired: is its ETag the one the catalog has for the key, or else HEAD?
    method Revalidate(now: int, key: string, off: nat, len: nat, world: ReadWorld, entry: CacheEntry)
      returns (r: ReadResult)
      requires Valid() && !soleWriter && cache.meta.Get(bucket, key) == Some(entry)
      modifies cache.meta
      ensures Valid()
      ensures r.Data? ==>
        ObjKey(bucket, key) in cache.store.files && r.bytes == ReadAt(cache.store.files[ObjKey(bucket, key)], off, len)
      ensures r.Data? ==> r.source.Validated? && r.source.etag == entry.etag != "" && UsedAt(key, now)
      ensures !IsValid(entry, now, ttl, false) ==>
        var way := SourceOf(Some(entry), now, ttl, false, world, if key in s3 then Some(s3[key]) else None);
        if r.Data? then r.source == way else way == Fetched
      ensures r.Data? ==>
        && Version(key, Blob(cache.store.files[ObjKey(bucket, key)], r.source.etag)) in versions
        && (if r.source.byHead then key in s3 && s3[key].etag == r.source.etag
            else world.rowEtag == Some(r.source.etag))
    {
      hide Agree, Labelled, EtagsTell, EntryKey, Used;
      ghost var m, files := cache.meta.entries, cache.store.files;
      var remote := if world.rowEtag.Some? then world.rowEtag.value else "";
      var byHead := remote == "";
      if byHead && world.headOk && key in s3 {
        remote := s3[key].etag;
      }
      if remote == "" || remote != entry.etag {
        return ReadError;
      }
      EntryIs(m, files, bucket, key);
      LabelOf(m, files, bucket, versions, EntryKey(bucket, key));
      cache.meta.Touch(now, bucket, key);
      TouchAgrees(m, files, EntryKey(bucket, key), now);
      UsedCases(m, cache.meta.entries, EntryKey(bucket, key), now);
      UsedLabelled(m, cache.meta.entries, files, bucket, versions);
      r := Data(ReadAt(cache.store.files[ObjKey(bucket, key)], off, len), Validated(remote, byHead));
    }

    lemma SameBytes(key: string, data: Bytes, off: nat, len: nat)
      requires ObjKey(bucket, key) in cache.store.files
      requires data == ReadAt(cache.store.files[ObjKey(bucket, key)], off, len)
      ensures CacheFresh() ==> key in s3 && data == ReadAt(s3[key].content, off, len)
    {
    }

    lemma VersionIsCurrent(key: string, r: ReadResult, off: nat, len: nat)
      requires Valid() && r.Data? && r.source.Validated? && ObjKey(bucket, key) in cache.store.files
      requires Version(key, Blob(cache.store.files[ObjKey(bucket, key)], r.source.etag)) in versions
      requires r.bytes == ReadAt(cache.store.files[ObjKey(bucket, key)], off, len)
      ensures ReadsVersion(key, r, off, len)
      ensures r.source.etag != "" && EtagsTell(versions) ==> ReadsOnlyVersion(key, r, off, len)
      ensures ReadsOnlyVersion(key, r, off, len) && key in s3 && s3[key].etag == r.source.etag ==>
        r.bytes == ReadAt(s3[key].content, off, len)
    {
      hide Agree, Labelled;
      var v := Version(key, Blob(cache.store.files[ObjKey(bucket, key)], r.source.etag));
      assert v.key == key && v.obj.etag == r.source.etag && r.bytes == ReadAt(v.obj.content, off, len);
      if key in s3 {
        assert Version(key, s3[key]) in versions;
      }
    }

    // The bytes are those of the version of the key that has this ETag.
    ghost predicate ReadsVersion(key: string, r: ReadResult, off: nat, len: nat)
      requires r.Data? && r.source.Validated?
      reads this
    {
      exists v <- versions :: v.key == key && v.obj.etag == r.source.etag && r.bytes == ReadAt(v.obj.content, off, len)
    }

    // ... and of every version with this ETag, whoever reported it.
    ghost predicate ReadsOnlyVersion(key: string, r: ReadResult, off: nat, len: nat)
      requires r.Data? && r.source.Validated?
      reads this
    {
      forall v <- versions :: v.key == key && v.obj.etag == r.source.etag ==> r.bytes == ReadAt(v.obj.content, off, len)
    }

    // syncUpload: S3 first; only what S3 took goes into the cache.
    method FlushSync(now: int, h: nat, putOk: bool, etag: string) returns (ok: bool)
      requires Valid() && h in handles
      modifies this, cache.meta, cache.store
      ensures Valid() && (old(CacheFresh()) ==> CacheFresh())
      ensures var x := old(handles)[h];
        if !x.dirty || !putOk then
          && ok == !x.dirty && s3 == old(s3) && handles == old(handles) && versions == old(versions)
          && cache.store.files == old(cache.store.files) && cache.meta.entries == old(cache.meta.entries)
        else
          && ok && s3 == old(s3)[x.key := Blob(x.tmp, etag)] && handles == old(handles)[h := x.(dirty := false)]
          && cache.store.files == old(cache.store.files)[ObjKey(bucket, x.key) := x.tmp]
          && cache.meta.entries == old(cache.meta.entries)[EntryKey(bucket, x.key) :=
               CacheEntry(bucket, x.key, etag, |x.tmp|, now, now, now)]
      ensures versions >= old(versions)
    {
      hide Agree, Labelled, Fresh, EtagsTell;
      var x := handles[h];
      if !x.dirty {
        return true;
      }
      if !putOk {
        return false;
      }
      var obj := Blob(x.tmp, etag);
      s3 := s3[x.key := obj];
      versions := versions + {Version(x.key, obj)};
      LabelledMore(cache.meta.entries, cache.store.files, bucket, old(versions), versions);
      FreshButOne(cache.store.files, bucket, old(s3), x.key, obj);
      CachePut(now, x.key, obj, now);
      handles := handles[h := x.(dirty := false)];
      ok := true;
    }

    // A write-back flush caches the bytes before S3 has them, with no ETag; the PUT comes later.
    method FlushWriteBack(now: int, h: nat)
      requires Valid() && h in handles && handles[h].dirty
      modifies this`handles, cache.meta, cache.store
      ensures Valid() && handles == old(handles)[h := OpenFile(old(handles)[h].key, [], false)]
      ensures var x := old(handles)[h];
        && cache.store.files == old(cache.store.files)[ObjKey(bucket, x.key) := x.tmp]
        && cache.meta.entries == old(cache.meta.entries)[EntryKey(bucket, x.key) :=
             CacheEntry(bucket, x.key, "", |x.tmp|, now, now, now)]
    {
      var x := handles[h];
      CachePut(now, x.key, Blob(x.tmp, ""), now);
      handles := handles[h := OpenFile(x.key, [], false)];
    }

    // S3 changes without this gateway: an upload worker's PUT, or another writer.
    method Foreign(key: string, obj: Option<Blob>)
      requires Valid()
      modifies this`s3, this`versions
      ensures Valid() && versions >= old(versions)
      ensures s3 == if obj.Some? then old(s3)[key := obj.value] else old(s3) - {key}
    {
      if obj.Some? {
        s3 := s3[key := obj.value];
        versions := versions + {Version(key, obj.value)};
      } else {
        s3 := s3 - {key};
      }
    }

    method Unlink(key: string, deleteOk: bool) returns (ok: bool)
      requires Valid()
      modifies this`s3, cache.meta, cache.store
      ensures Valid() && (old(CacheFresh()) ==> CacheFresh())
      ensures ok == deleteOk && s3 == if ok then old(s3) - {key} else old(s3)
      ensures cache.store.files == old(cache.store.files) - (if ok then {ObjKey(bucket, key)} else {})
      ensures cache.meta.entries == old(cache.meta.entries) - (if ok then {EntryKey(bucket, key)} else {})
    {
      if !deleteOk {
        return false;
      }
      s3 := s3 - {key};
      Drop(key);
      ok := true;
    }

    // A failed delete of the source is only logged.
    method Rename(src: string, dst: string, copyOk: bool, deleteOk: bool, etag: string) returns (ok: bool)
      requires Valid()
      modifies this`s3, this`versions, cache.meta, cache.store
      ensures Valid() && (old(CacheFresh()) ==> CacheFresh()) && versions >= old(versions)
      ensures ok <==> copyOk && src in old(s3) && src != dst
      ensures s3 == if !ok then old(s3)
                    else old(s3)[dst := Blob(old(s3)[src].content, etag)] - (if deleteOk then {src} else {})
      ensures cache.store.files ==
        old(cache.store.files) - (if ok then {ObjKey(bucket, src), ObjKey(bucket, dst)} else {})
      ensures cache.meta.entries ==
        old(cache.meta.entries) - (if ok then {EntryKey(bucket, src), EntryKey(bucket, dst)} else {})
    {
      hide Agree, Labelled, EtagsTell, EntryKey;
      if !copyOk || src !in s3 || src == dst {
        return false;
      }
      var copy := Blob(s3[src].content, etag);
      s3 := s3[dst := copy];
      versions := versions + {Version(dst, copy)};
      LabelledMore(cache.meta.entries, cache.store.files, bucket, old(versions), versions);
      if deleteOk {
        s3 := s3 - {src};
      }
      Drop(src);
      Drop(dst);
      ok := true;
    }

    // One run of eviction.
    method Evict() returns (ghost es: seq<CacheEntry>, ghost n: nat)
      requires Valid()
      modifies cache.meta, cache.store
      ensures Valid() && (old(CacheFresh()) ==> CacheFresh())
      ensures n <= |es|
      ensures cache.store.files == old(cache.store.files) - Unlinked(old(cache.store.files), NO_FAULTS, es[..n])
      ensures if Sum(old(cache.meta.entries)) <= cache.evictor.maxSize * 9 / 10 then n == 0
              else
                && IsLeastRecent(old(cache.meta.entries), es, 100)
                && (n == |es| || Sum(cache.meta.entries) <= cache.evictor.maxSize * 8 / 10)
    {
      ghost var m, files := cache.meta.entries, cache.store.files;
      var total;
      total, es, n := cache.evictor.EvictOnce(NO_FAULTS);
      EvictLabelled(m, files, bucket, versions, es[..n]);
    }
  }

  // ---------------------------------------------------------------- any sequence of operations

  datatype Op =
    | DoOpen(h: nat, key: string)
    | DoWrite(h: nat, w: Write)
    | DoFlush(now: int, h: nat, putOk: bool, etag: string)
    | DoRead(now: int, h: nat, off: nat, len: nat, world: ReadWorld)
    | DoUnlink(key: string, deleteOk: bool)
    | DoRename(src: string, dst: string, copyOk: bool, deleteOk: bool, etag: string)
    | DoEvict
    | DoFlushWriteBack(now: int, h: nat)            // cached and queued; S3 has the old object
    | DoForeign(key: string, obj: Option<Blob>)     // an upload worker's PUT, or another writer

  // What a read on a clean handle returned, and what S3 had under the key at that moment.
  datatype Reading = Reading(key: string, bytes: Bytes, source: Source, off: nat, len: nat, current: Option<Bytes>)

  predicate UpToDate(r: Reading) {
    r.current.Some? && r.bytes == ReadAt(r.current.value, r.off, r.len)
  }

  // The bytes are those of a version of the key with the ETag that was reported for it ...
  ghost predicate OfVersion(r: Reading, versions: set<Version>)
    requires r.source.Validated?
  {
    exists v <- versions ::
      v.key == r.key && v.obj.etag == r.source.etag != "" && r.bytes == ReadAt(v.obj.content, r.off, r.len)
  }

  // ... and of every such version.
  ghost predicate OfEveryVersion(r: Reading, versions: set<Version>)
    requires r.source.Validated?
  {
    forall v <- versions ::
      v.key == r.key && v.obj.etag == r.source.etag ==> r.bytes == ReadAt(v.obj.content, r.off, r.len)
  }

  // The reading is what this operation asked for.
  predicate Asked(op: Op, r: Reading) {
    op.DoRead? && r.off == op.off && r.len == op.len
  }

  lemma TellingEtags(r: Reading, versions: set<Version>)
    requires r.source.Validated? && OfVersion(r, versions)
    ensures EtagsTell(versions) ==> OfEveryVersion(r, versions)
  {
  }

  // A read on a clean handle fails only if it has to fetch the object and cannot.
  ghost predicate ReadFails(m: Mount, now: int, key: string, world: ReadWorld)
    reads m, m.cache.meta, m.cache.store
  {
    && SourceOf(m.Copy(key), now, m.ttl, m.soleWriter, world, if key in m.s3 then Some(m.s3[key]) else None) == Fetched
    && (!world.getOk || key !in m.s3)
  }

  method Perform(m: Mount, op: Op) returns (r: Option<Reading>)
    requires m.Valid()
    modifies m, m.cache.meta, m.cache.store
    ensures m.Valid() && m.versions >= old(m.versions)
    ensures !op.DoFlushWriteBack? && !op.DoForeign? && old(m.CacheFresh()) ==> m.CacheFresh()
    ensures r.Some? && m.soleWriter && old(m.CacheFresh()) ==> UpToDate(r.value)
    ensures r.Some? && r.value.source.Validated? ==> OfVersion(r.value, m.versions)
    ensures r.Some? ==>
      Asked(op, r.value) && m.handles == old(m.handles) && op.h in m.handles && r.value.key == m.handles[op.h].key
    ensures r.Some? <==>
      && op.DoRead? && op.h in old(m.handles) && !old(m.handles[op.h].dirty)
      && !old(ReadFails(m, op.now, m.handles[op.h].key, op.world))
  {
    hide Agree, Labelled, EtagsTell, EntryKey, Fresh, SourceOf, ReadFails;
    r := None;
    match op {
      case DoOpen(h, key) => if h !in m.handles { m.OpenHandle(h, key); }
      case DoWrite(h, w) => if h in m.handles { m.Write(h, w); }
      case DoFlush(now, h, putOk, etag) => if h in m.handles { var _ := m.FlushSync(now, h, putOk, etag); }
      case DoRead(now, h, off, len, world) => if h in m.handles { r := ReadClean(m, now, h, off, len, world); }
      case DoUnlink(key, deleteOk) => var _ := m.Unlink(key, deleteOk);
      case DoRename(src, dst, copyOk, deleteOk, etag) => var _ := m.Rename(src, dst, copyOk, deleteOk, etag);
      case DoEvict => var _, _ := m.Evict();
      case DoFlushWriteBack(now, h) => if h in m.handles && m.handles[h].dirty { m.FlushWriteBack(now, h); }
      case DoForeign(key, obj) => m.Foreign(key, obj);
    }
  }

  method ReadClean(m: Mount, now: int, h: nat, off: nat, len: nat, world: ReadWorld) returns (r: Option<Reading>)
    requires m.Valid() && h in m.handles
    modifies m.cache.meta, m.cache.store
    ensures m.Valid() && (old(m.CacheFresh()) ==> m.CacheFresh())
    ensures r.Some? && m.soleWriter && old(m.CacheFresh()) ==> UpToDate(r.value)
    ensures r.Some? && r.value.source.Validated? ==> OfVersion(r.value, m.versions)
    ensures r.Some? ==> r.value.key == m.handles[h].key && r.value.off == off && r.value.len == len
    ensures r.Some? <==> !m.handles[h].dirty && !old(ReadFails(m, now, m.handles[h].key, world))
  {
    hide Agree, Labelled, EtagsTell, EntryKey, Fresh, SourceOf;
    var x := m.handles[h];
    var got := m.Read(now, h, off, len, world);
    if got.ReadError? || x.dirty {
      return None;
    }
    var current := if x.key in m.s3 then Some(m.s3[x.key].content) else None;
    r := Some(Reading(x.key, got.bytes, got.source, off, len, current));
  }

  // Where this gateway is the only writer and uploads synchronously, every read on a clean handle
  // that returns bytes returns S3's, whatever was opened, written, flushed, unlinked, renamed and
  // evicted before, and whichever S3 calls failed.
  method Session(m: Mount, ops: seq<Op>) returns (readings: seq<Option<Reading>>)
    requires m.Valid() && m.CacheFresh() && m.soleWriter
    requires forall op <- ops :: !op.DoFlushWriteBack? && !op.DoForeign?
    modifies m, m.cache.meta, m.cache.store
    ensures m.Valid() && m.CacheFresh()
    ensures |readings| == |ops| && forall r <- readings :: r.Some? ==> UpToDate(r.value)
    ensures forall i :: 0 <= i < |ops| && readings[i].Some? ==> Asked(ops[i], readings[i].value)
  {
    hide Agree, Labelled, EtagsTell, EntryKey, Fresh;
    readings := [];
    for i := 0 to |ops|
      invariant m.Valid() && m.CacheFresh()
      invariant |readings| == i && (forall k :: 0 <= k < i && readings[k].Some? ==> Asked(ops[k], readings[k].value))
      invariant forall r <- readings :: r.Some? ==> UpToDate(r.value)
    {
      assert ops[i] in ops;
      var r := Perform(m, ops[i]);
      readings := readings + [r];
    }
  }

  // With other writers, write-back flushes and uploads in between: every expired copy that is
  // served all the same is the version of its key with the ETag that the catalog or HEAD reported,
  // over any sequence of operations. If an ETag stands for its bytes, it is that of every version
  // with that ETag, past or future.
  method SharedSession(m: Mount, ops: seq<Op>) returns (readings: seq<Option<Reading>>)
    requires m.Valid()
    modifies m, m.cache.meta, m.cache.store
    ensures m.Valid()
    ensures |readings| == |ops| && forall r <- readings ::
      r.Some? && r.value.source.Validated? ==> OfVersion(r.value, m.versions)
    ensures forall i :: 0 <= i < |ops| && readings[i].Some? ==> Asked(ops[i], readings[i].value)
    ensures EtagsTell(m.versions) ==>
      forall r <- readings :: r.Some? && r.value.source.Validated? ==> OfEveryVersion(r.value, m.versions)
  {
    hide Agree, Labelled, EtagsTell, EntryKey, Fresh, OfEveryVersion;
    readings := [];
    for i := 0 to |ops|
      invariant m.Valid()
      invariant |readings| == i && (forall k :: 0 <= k < i && readings[k].Some? ==> Asked(ops[k], readings[k].value))
      invariant forall r <- readings ::
        r.Some? && r.value.source.Validated? ==> OfVersion(r.value, m.versions)
    {
      var r := Perform(m, ops[i]);
      readings := readings + [r];
    }
    forall r <- readings | r.Some? && r.value.source.Validated?
      ensures EtagsTell(m.versions) ==> OfEveryVersion(r.value, m.versions)
    {
      TellingEtags(r.value, m.versions);
    }
  }

  // ---------------------------------------------------------------- what keeps labels true

  lemma PutLabelled(m: Entries, files: Files, bucket: string, versions: set<Version>, e: CacheEntry, content: Bytes)
    requires Agree(m, files) && Labelled(m, files, bucket, versions) && e.bucket == bucket
    requires e.etag != "" ==> Version(e.key, Blob(content, e.etag)) in versions
    ensures Labelled(m[EntryKey(bucket, e.key) := e], files[Id(e) := content], bucket, versions)
  {
    hide EntryKey;
    forall k <- m | k != EntryKey(bucket, e.key) ensures Id(m[k]) != Id(e) {
    }
  }

  lemma DropLabelled(m: Entries, files: Files, bucket: string, versions: set<Version>, key: string)
    requires Agree(m, files) && Labelled(m, files, bucket, versions)
    ensures Labelled(m - {EntryKey(bucket, key)}, files - {ObjKey(bucket, key)}, bucket, versions)
  {
    hide EntryKey;
    forall k <- m | k != EntryKey(bucket, key) ensures Id(m[k]) != ObjKey(bucket, key) {
    }
  }

  lemma FreshButOne(files: Files, bucket: string, s3: map<string, Blob>, key: string, obj: Blob)
    ensures Fresh(files, bucket, s3, {}) ==> Fresh(files, bucket, s3[key := obj], {key})
  {
  }

  lemma LabelledMore(m: Entries, files: Files, bucket: string, versions: set<Version>, versions': set<Version>)
    requires Labelled(m, files, bucket, versions) && versions <= versions'
    ensures Labelled(m, files, bucket, versions')
  {
  }

  lemma LabelOf(m: Entries, files: Files, bucket: string, versions: set<Version>, k: string)
    requires Labelled(m, files, bucket, versions) && k in m && m[k].bucket == bucket && m[k].etag != ""
    ensures Id(m[k]) in files && Version(m[k].key, Blob(files[Id(m[k])], m[k].etag)) in versions
  {
  }

  // The same rows, or fewer, but for the time of last use.
  ghost predicate Used(m: Entries, m': Entries) {
    forall k <- m' :: k in m && m'[k] == m[k].(lastAccessed := m'[k].lastAccessed)
  }

  lemma UsedCases(m: Entries, m': Entries, k: string, now: int)
    requires m' == m || m' == m - {k} || (k in m && m' == m[k := m[k].(lastAccessed := now)])
    ensures Used(m, m')
  {
  }

  lemma UsedLabelled(m: Entries, m': Entries, files: Files, bucket: string, versions: set<Version>)
    requires Used(m, m') && Labelled(m, files, bucket, versions)
    ensures Labelled(m', files, bucket, versions)
  {
  }

  lemma TouchAgrees(m: Entries, files: Files, k: string, now: int)
    requires Agree(m, files) && k in m
    ensures Agree(m[k := m[k].(lastAccessed := now)], files)
  {
  }

  lemma EntryIs(m: Entries, files: Files, bucket: string, key: string)
    requires Agree(m, files) && NoSlash(bucket) && EntryKey(bucket, key) in m
    ensures Id(m[EntryKey(bucket, key)]) == ObjKey(bucket, key) && ObjKey(bucket, key) in files
  {
    var e := m[EntryKey(bucket, key)];
    EntryKeyDetermines(e.bucket, e.key, bucket, key);
  }

  lemma EvictLabelled(m: Entries, files: Files, bucket: string, versions: set<Version>, es: seq<CacheEntry>)
    requires Agree(m, files) && Labelled(m, files, bucket, versions)
    requires forall e <- es :: EntryKey(e.bucket, e.key) in m && m[EntryKey(e.bucket, e.key)] == e
    ensures var m', files' := m - Evicted(files, NO_FAULTS, es), files - Unlinked(files, NO_FAULTS, es);
      Agree(m', files') && Labelled(m', files', bucket, versions)
  {
    EvictionAgrees(m, files, es);
  }
}
