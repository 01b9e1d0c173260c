/**
 What reads return in write-back mode where this gateway is the only writer: a flush caches its bytes
 at once and S3 gets them later (Flush and Read in internal/fuse/handle.go), while eviction takes
 copies away and a read fetches what S3 has by then. A history says which flush a cached copy and
 S3's object come from; a session over the mount keeps such a history.
 */
module FlushReads {
  import opened Ids
  import opened Buffers
  import opened CacheEntries
  import opened DiskCache
  import opened Freshness

  datatype Event =
    | Flushed(key: string, data: Bytes)   // the bytes are cached and on their way to S3
    | Uploaded(flush: nat)                // S3 has taken those of the flush at this place in the history
    | Evicted(keys: set<string>)
    | Downloaded(key: string)             // a GET, and the object is cached

  // Where bytes come from.
  datatype Origin = Nowhere | AtStart | Flush(at: nat)

  // S3's objects in the beginning, and which of them are cached.
  datatype Start = Start(objects: map<string, Bytes>, cached: set<string>)

  predicate Flushes(e: Event, key: string) {
    e.Flushed? && e.key == key
  }

  predicate Evicts(e: Event, key: string) {
    e.Evicted? && key in e.keys
  }

  // Event u takes bytes of this key to S3.
  predicate Uploads(h: seq<Event>, u: nat, key: string) {
    u < |h| && h[u].Uploaded? && h[u].flush < u && Flushes(h[h[u].flush], key)
  }

  // What S3's object under the key comes from.
  function ObjectOf(st: Start, h: seq<Event>, key: string): (o: Origin)
    ensures o.Flush? ==> o.at < |h| && Flushes(h[o.at], key)
    ensures o == AtStart ==> key in st.objects
  {
    if h == [] then (if key in st.objects then AtStart else Nowhere)
    else if Uploads(h, |h| - 1, key) then Flush(h[|h| - 1].flush)
    else ObjectOf(st, h[..|h| - 1], key)
  }

  // And what the cached copy does.
  function CopyOf(st: Start, h: seq<Event>, key: string): (o: Origin)
    ensures o.Flush? ==> o.at < |h| && Flushes(h[o.at], key)
    ensures o == AtStart ==> key in st.objects
  {
    if h == [] then (if key in st.cached && key in st.objects then AtStart else Nowhere)
    else
      var last, before := h[|h| - 1], h[..|h| - 1];
      if Flushes(last, key) then Flush(|h| - 1)
      else if Evicts(last, key) then Nowhere
      else if last == Downloaded(key) then ObjectOf(st, before, key)
      else CopyOf(st, before, key)
  }

  function Content(st: Start, h: seq<Event>, key: string, o: Origin): Bytes {
    match o
    case Nowhere => []
    case AtStart => if key in st.objects then st.objects[key] else []
    case Flush(n) => if n < |h| && h[n].Flushed? then h[n].data else []
  }

  // Only what has been flushed is uploaded, and an object is fetched only for want of a copy.
  predicate History(st: Start, h: seq<Event>) {
    forall i :: 0 <= i < |h| ==>
      && (h[i].Uploaded? ==> h[i].flush < i && h[h[i].flush].Flushed?)
      && (h[i].Downloaded? ==> CopyOf(st, h[..i], h[i].key) == Nowhere && ObjectOf(st, h[..i], h[i].key) != Nowhere)
  }

  // ---------------------------------------------------------------- which reads miss the last flush

  predicate LastFlush(h: seq<Event>, key: string, f: nat) {
    f < |h| && Flushes(h[f], key) && forall i :: f < i < |h| ==> !Flushes(h[i], key)
  }

  // At moment m S3's object is that of flush f: it has been uploaded, and nothing else since.
  ghost predicate InS3(h: seq<Event>, key: string, f: nat, m: nat)
    requires m <= |h|
  {
    exists u :: 0 <= u < m && h[u] == Uploaded(f) && forall v :: u < v < m ==> !Uploads(h, v, key)
  }

  // After the flush its copy was evicted, and the object was fetched at g before S3 had the flush;
  // that copy has stayed in the cache.
  ghost predicate FetchedTooEarly(h: seq<Event>, key: string, f: nat, g: nat)
    requires g < |h|
  {
    && h[g] == Downloaded(key) && !InS3(h, key, f, g)
    && (exists e :: f < e < g && Evicts(h[e], key))
    && forall i :: g < i < |h| ==> !Evicts(h[i], key)
  }

  // A copy, and so every read it serves, misses the last flush of its key exactly if it was fetched
  // between the eviction of that flush's copy and its arrival in S3.
  lemma MissesExactly(st: Start, h: seq<Event>, key: string, f: nat)
    requires History(st, h) && LastFlush(h, key, f) && CopyOf(st, h, key) != Nowhere
    ensures CopyOf(st, h, key) != Flush(f) <==> exists g :: f < g < |h| && FetchedTooEarly(h, key, f, g)
  {
    hide History, ObjectOf, CopyOf, InS3;
    var g := CopySince(st, h, key, f);
    if g != f {
      ObjectIsFlush(st, h, key, f, g);
      assert FetchedTooEarly(h, key, f, g) <==> CopyOf(st, h, key) != Flush(f);
    }
    forall g' | f < g' < |h| && FetchedTooEarly(h, key, f, g') ensures g' == g {
      if g' < g {
        OneFetch(st, h, key, g', g);
      }
    }
  }

  // With one worker uploads come in the order of the flushes; then S3 has the last flush as soon as
  // it has been uploaded.
  lemma InOrderReached(st: Start, h: seq<Event>, key: string, f: nat, m: nat)
    requires History(st, h) && LastFlush(h, key, f) && m <= |h|
    requires forall u, v :: 0 <= u < v < |h| && Uploads(h, u, key) && Uploads(h, v, key) ==> h[u].flush < h[v].flush
    ensures InS3(h, key, f, m) <==> exists u :: f < u < m && h[u] == Uploaded(f)
  {
    hide CopyOf, ObjectOf;
    forall u | f < u < m && h[u] == Uploaded(f) ensures forall v :: u < v < m ==> !Uploads(h, v, key) {
      assert Uploads(h, u, key);
    }
  }

  // The place where the present copy came into the cache: the last flush, or a later fetch that found
  // no copy because of an eviction.
  lemma {:induction false} CopySince(st: Start, h: seq<Event>, key: string, f: nat) returns (g: nat)
    requires History(st, h) && LastFlush(h, key, f) && CopyOf(st, h, key) != Nowhere
    ensures f <= g < |h| && forall i :: g < i < |h| ==> !Evicts(h[i], key) && h[i] != Downloaded(key)
    ensures g == f ==> CopyOf(st, h, key) == Flush(f)
    ensures g != f ==> h[g] == Downloaded(key) && CopyOf(st, h, key) == ObjectOf(st, h[..g], key)
    ensures g != f ==> exists e :: f < e < g && Evicts(h[e], key)
  {
    hide CopyOf, ObjectOf;
    var n := |h| - 1;
    NextOrigins(st, h[..n], h[n], key);
    assert h == h[..n] + [h[n]];
    if n == f {
      g := f;
    } else if h[n] == Downloaded(key) {
      g := n;
      NextOrigins(st, h[..f], h[f], key);
      assert h[..f + 1] == h[..f] + [h[f]];
      LosesCopy(st, h, key, f, n);
    } else {
      HistoryPrefix(st, h, n);
      g := CopySince(st, h[..n], key, f);
      assert h[..n][..g] == h[..g];
    }
  }

  // A copy that is there after event f and not before event m has been evicted in between.
  lemma {:induction false} LosesCopy(st: Start, h: seq<Event>, key: string, f: nat, m: nat)
    requires History(st, h) && f < m <= |h| && CopyOf(st, h[..f + 1], key) != Nowhere
    requires CopyOf(st, h[..m], key) == Nowhere
    ensures exists e :: f < e < m && Evicts(h[e], key)
  {
    hide ObjectOf;
    if !Evicts(h[m - 1], key) {
      assert h[..m][..m - 1] == h[..m - 1];
      LosesCopy(st, h, key, f, m - 1);
    }
  }

  lemma {:induction false} ObjectIsFlush(st: Start, h: seq<Event>, key: string, f: nat, m: nat)
    requires f < |h| && Flushes(h[f], key) && m <= |h| && History(st, h)
    ensures ObjectOf(st, h[..m], key) == Flush(f) <==> InS3(h, key, f, m)
  {
    hide CopyOf, ObjectOf, History, InS3;
    InS3Step(st, h, key, f, m);
    if m == 0 {
      assert h[..0] == [];
      NoFlushYet(st, key);
    } else {
      ObjectIsFlush(st, h, key, f, m - 1);
      NextOrigins(st, h[..m - 1], h[m - 1], key);
      assert h[..m] == h[..m - 1] + [h[m - 1]];
    }
  }

  lemma NoFlushYet(st: Start, key: string)
    ensures !ObjectOf(st, [], key).Flush?
  {
  }

  lemma InS3Step(st: Start, h: seq<Event>, key: string, f: nat, m: nat)
    requires f < |h| && Flushes(h[f], key) && m <= |h| && History(st, h)
    ensures m == 0 ==> !InS3(h, key, f, m)
    ensures m > 0 ==>
      (InS3(h, key, f, m) <==> if Uploads(h, m - 1, key) then h[m - 1].flush == f else InS3(h, key, f, m - 1))
    ensures m > 0 && h[m - 1].Uploaded? ==> h[m - 1].flush < m - 1
  {
    hide CopyOf, ObjectOf;
    if m > 0 && Uploads(h, m - 1, key) && h[m - 1].flush == f {
      assert h[m - 1] == Uploaded(f);
    }
  }

  lemma HistoryPrefix(st: Start, h: seq<Event>, n: nat)
    requires History(st, h) && n <= |h|
    ensures History(st, h[..n])
  {
    hide ObjectOf, CopyOf;
    assert forall i :: 0 <= i < n ==> h[..n][..i] == h[..i];
  }

  // Only the last fetch since can have no eviction after it.
  lemma OneFetch(st: Start, h: seq<Event>, key: string, g: nat, g': nat)
    requires History(st, h) && g < g' < |h| && h[g] == Downloaded(key) == h[g']
    ensures exists e :: g < e < g' && Evicts(h[e], key)
  {
    hide ObjectOf;
    assert h[..g + 1][..g] == h[..g];
    LosesCopy(st, h, key, g, g');
  }

  // It does happen, and for good: what was flushed has long been uploaded, and as long as nobody
  // flushes the key and eviction spares it, reads return the object that S3 had before.
  lemma {:induction false} OldForGood(key: string, was: Bytes, data: Bytes, more: seq<Event>)
    requires forall e <- more :: !Flushes(e, key) && !Evicts(e, key) && e != Downloaded(key)
    ensures var st := Start(map[key := was], {});
      var h := [Flushed(key, data), Evicted({key}), Downloaded(key), Uploaded(0)];
      && History(st, h) && LastFlush(h, key, 0) && InS3(h, key, 0, |h|)
      && CopyOf(st, h + more, key) == AtStart && Content(st, h + more, key, AtStart) == was
  {
    var st := Start(map[key := was], {});
    var h := [Flushed(key, data), Evicted({key}), Downloaded(key), Uploaded(0)];
    if more == [] {
      FourEvents(st, key, data);
      assert h + more == h && h[3] == Uploaded(0);
    } else {
      var n := |more| - 1;
      OldForGood(key, was, data, more[..n]);
      assert more[n] in more && (h + more)[..4 + n] == h + more[..n];
    }
  }

  lemma FourEvents(st: Start, key: string, data: Bytes)
    requires st.cached == {} && st.objects.Keys == {key}
    ensures var h := [Flushed(key, data), Evicted({key}), Downloaded(key), Uploaded(0)];
      History(st, h) && CopyOf(st, h, key) == AtStart
  {
    var h := [Flushed(key, data), Evicted({key}), Downloaded(key), Uploaded(0)];
    assert h[..4] == h && h[..4][..3] == h[..3] && h[..3][..2] == h[..2] && h[..2][..1] == h[..1] && h[..1][..0] == [];
    assert h[..2][1] == Evicted({key}) && h[..3][2] == Downloaded(key);
    assert ObjectOf(st, h[..1], key) == AtStart;
    assert ObjectOf(st, h[..2], key) == AtStart;
    assert CopyOf(st, h[..2], key) == Nowhere;
    assert CopyOf(st, h[..3], key) == AtStart;
  }

  // ---------------------------------------------------------------- a session over the mount

  datatype Action =
    | Opens(h: nat, key: string)
    | Writes(h: nat, w: Write)
    | FlushQueued(now: int, h: nat)                            // staged, cached, submitted
    | FlushDirect(now: int, h: nat, putOk: bool, etag: string) // the staging rename failed
    | UploadDone(flush: nat, etag: string)                     // by a worker or the full queue's fallback
    | EvictorRuns
    | Reads(now: int, h: nat, off: nat, len: nat, world: ReadWorld)

  // What a read on a clean handle returned, and all that had happened by then.
  datatype Served = Served(past: seq<Event>, key: string, bytes: Bytes, off: nat, len: nat)

  // The bytes are those of the flush, or object of the beginning, that the history says are cached.
  predicate Explained(st: Start, r: Served) {
    var o := CopyOf(st, r.past, r.key);
    o != Nowhere && r.bytes == ReadAt(Content(st, r.past, r.key, o), r.off, r.len)
  }

  // The bytes are those of the flush, or the copy was fetched too early for that.
  ghost predicate SeesFlush(r: Served, f: nat)
    requires f < |r.past| && r.past[f].Flushed?
  {
    || r.bytes == ReadAt(r.past[f].data, r.off, r.len)
    || exists g :: f < g < |r.past| && FetchedTooEarly(r.past, r.key, f, g)
  }

  // For this key, cache and S3 hold what the history says.
  predicate KeyTracked(files: Files, bucket: string, s3: map<string, Blob>, st: Start, h: seq<Event>, key: string) {
    var copy, there := CopyOf(st, h, key), ObjectOf(st, h, key);
    && (ObjKey(bucket, key) in files <==> copy != Nowhere)
    && (ObjKey(bucket, key) in files ==> files[ObjKey(bucket, key)] == Content(st, h, key, copy))
    && (key in s3 <==> there != Nowhere)
    && (key in s3 ==> s3[key].content == Content(st, h, key, there))
  }

  ghost predicate Tracks(files: Files, bucket: string, s3: map<string, Blob>, st: Start, h: seq<Event>) {
    History(st, h) && forall key :: KeyTracked(files, bucket, s3, st, h, key)
  }

  // What an event does to cache and S3, key by key.
  ghost predicate Effect(files: Files, files': Files, bucket: string, s3: map<string, Blob>, s3': map<string, Blob>,
                         h: seq<Event>, e: Event) {
    match e
    case Flushed(key, data) => files' == files[ObjKey(bucket, key) := data] && s3' == s3
    case Uploaded(n) =>
      && n < |h| && h[n].Flushed? && files' == files && h[n].key in s3' && s3'[h[n].key].content == h[n].data
      && s3' == s3[h[n].key := s3'[h[n].key]]
    case Evicted(keys) =>
      && s3' == s3
      && forall key ::
           && (ObjKey(bucket, key) in files' <==> ObjKey(bucket, key) in files && key !in keys)
           && (ObjKey(bucket, key) in files' ==> files'[ObjKey(bucket, key)] == files[ObjKey(bucket, key)])
    case Downloaded(key) =>
      && key in s3 && ObjKey(bucket, key) !in files
      && files' == files[ObjKey(bucket, key) := s3[key].content] && s3' == s3
  }

  lemma NextTracked(files: Files, files': Files, bucket: string, s3: map<string, Blob>, s3': map<string, Blob>,
                    st: Start, h: seq<Event>, e: Event)
    requires Tracks(files, bucket, s3, st, h) && Effect(files, files', bucket, s3, s3', h, e)
    ensures Tracks(files', bucket, s3', st, h + [e])
  {
    hide CopyOf, ObjectOf, KeyTracked, Effect;
    NextHistory(files, files', bucket, s3, s3', st, h, e);
    forall key ensures KeyTracked(files', bucket, s3', st, h + [e], key) {
      assert KeyTracked(files, bucket, s3, st, h, key);
      NextKeyTracked(files, files', bucket, s3, s3', st, h, e, key);
    }
  }

  lemma NextHistory(files: Files, files': Files, bucket: string, s3: map<string, Blob>, s3': map<string, Blob>,
                    st: Start, h: seq<Event>, e: Event)
    requires Tracks(files, bucket, s3, st, h) && Effect(files, files', bucket, s3, s3', h, e)
    ensures History(st, h + [e])
  {
    hide CopyOf, ObjectOf;
    assert forall i :: 0 <= i <= |h| ==> (h + [e])[..i] == h[..i];
    assert h[..|h|] == h;
    if e.Downloaded? {
      assert KeyTracked(files, bucket, s3, st, h, e.key);
    }
  }

  lemma NextKeyTracked(files: Files, files': Files, bucket: string, s3: map<string, Blob>, s3': map<string, Blob>,
                       st: Start, h: seq<Event>, e: Event, key: string)
    requires KeyTracked(files, bucket, s3, st, h, key) && Effect(files, files', bucket, s3, s3', h, e)
    ensures KeyTracked(files', bucket, s3', st, h + [e], key)
  {
    hide CopyOf, ObjectOf;
    NextOrigins(st, h, e, key);
    assert forall i :: 0 <= i < |h| ==> (h + [e])[i] == h[i];
  }

  lemma NextOrigins(st: Start, h: seq<Event>, e: Event, key: string)
    ensures ObjectOf(st, h + [e], key) ==
      if e.Uploaded? && e.flush < |h| && Flushes(h[e.flush], key) then Flush(e.flush) else ObjectOf(st, h, key)
    ensures CopyOf(st, h + [e], key) ==
      if Flushes(e, key) then Flush(|h|) else if Evicts(e, key) then Nowhere
      else if e == Downloaded(key) then ObjectOf(st, h, key) else CopyOf(st, h, key)
  {
    assert (h + [e])[..|h|] == h;
  }

  lemma StartTracked(m: Mount, st: Start)
    requires m.Valid() && m.CacheFresh()
    requires st.objects == map k <- m.s3 :: m.s3[k].content
    requires st.cached == set id <- m.cache.store.files | id.bucket == m.bucket :: id.key
    ensures Tracks(m.cache.store.files, m.bucket, m.s3, st, [])
  {
    var files := m.cache.store.files;
    forall key ensures KeyTracked(files, m.bucket, m.s3, st, [], key) {
      assert ObjKey(m.bucket, key) in files <==> key in st.cached;
    }
  }

  method PerformCall(m: Mount, ghost st: Start, h: seq<Event>, call: Action) returns (h': seq<Event>, r: Option<Served>)
    requires m.Valid() && m.soleWriter && Tracks(m.cache.store.files, m.bucket, m.s3, st, h)
    modifies m, m.cache.meta, m.cache.store
    ensures m.Valid() && Tracks(m.cache.store.files, m.bucket, m.s3, st, h')
    ensures h <= h' && (r.Some? ==> r.value.past == h' && Explained(st, r.value))
    ensures r.Some? ==>
      && call.Reads? && call.h in m.handles && r.value.key == m.handles[call.h].key
      && r.value.off == call.off && r.value.len == call.len
    ensures r.Some? <==>
      && call.Reads? && call.h in old(m.handles) && !old(m.handles[call.h].dirty)
      && !old(ReadFails(m, call.now, m.handles[call.h].key, call.world))
  {
    hide Agree, Labelled, Fresh, EntryKey, CopyOf, ObjectOf, KeyTracked, History, ReadAt, ReadFails;
    h', r := h, None;
    match call {
      case Opens(n, key) => if n !in m.handles { m.OpenHandle(n, key); }
      case Writes(n, w) => if n in m.handles { m.Write(n, w); }
      case FlushQueued(now, n) => if n in m.handles && m.handles[n].dirty { h' := FlushLater(m, st, h, now, n); }
      case FlushDirect(now, n, putOk, etag) => if n in m.handles { h' := FlushNow(m, st, h, now, n, putOk, etag); }
      case UploadDone(n, etag) =>
        if n < |h| && h[n].Flushed? {
          ghost var s3 := m.s3;
          m.Foreign(h[n].key, Some(Blob(h[n].data, etag)));
          h' := h + [Uploaded(n)];
          NextTracked(m.cache.store.files, m.cache.store.files, m.bucket, s3, m.s3, st, h, Uploaded(n));
        }
      case EvictorRuns => h' := EvictSome(m, st, h);
      case Reads(now, n, off, len, world) =>
        if n in m.handles { h', r := ServeClean(m, st, h, now, n, off, len, world); }
    }
  }

  method FlushLater(m: Mount, ghost st: Start, h: seq<Event>, now: int, n: nat) returns (h': seq<Event>)
    requires m.Valid() && Tracks(m.cache.store.files, m.bucket, m.s3, st, h) && n in m.handles && m.handles[n].dirty
    modifies m`handles, m.cache.meta, m.cache.store
    ensures m.Valid() && Tracks(m.cache.store.files, m.bucket, m.s3, st, h') && h <= h'
  {
    hide Agree, Labelled, Fresh, EntryKey, Tracks;
    var x := m.handles[n];
    ghost var files := m.cache.store.files;
    m.FlushWriteBack(now, n);
    h' := h + [Flushed(x.key, x.tmp)];
    NextTracked(files, m.cache.store.files, m.bucket, m.s3, m.s3, st, h, Flushed(x.key, x.tmp));
  }

  // syncUpload: S3 has the bytes before they are cached; together that is a flush and its upload.
  method FlushNow(m: Mount, ghost st: Start, h: seq<Event>, now: int, n: nat, putOk: bool, etag: string)
    returns (h': seq<Event>)
    requires m.Valid() && Tracks(m.cache.store.files, m.bucket, m.s3, st, h) && n in m.handles
    modifies m, m.cache.meta, m.cache.store
    ensures m.Valid() && Tracks(m.cache.store.files, m.bucket, m.s3, st, h') && h <= h'
  {
    hide Agree, Labelled, Fresh, EntryKey, Tracks;
    var x := m.handles[n];
    ghost var files, s3 := m.cache.store.files, m.s3;
    var ok := m.FlushSync(now, n, putOk, etag);
    if !x.dirty || !ok {
      return h;
    }
    var e := Flushed(x.key, x.tmp);
    h' := h + [e] + [Uploaded(|h|)];
    NextTracked(files, m.cache.store.files, m.bucket, s3, s3, st, h, e);
    NextTracked(m.cache.store.files, m.cache.store.files, m.bucket, s3, m.s3, st, h + [e], Uploaded(|h|));
  }

  method EvictSome(m: Mount, ghost st: Start, h: seq<Event>) returns (h': seq<Event>)
    requires m.Valid() && Tracks(m.cache.store.files, m.bucket, m.s3, st, h)
    modifies m.cache.meta, m.cache.store
    ensures m.Valid() && Tracks(m.cache.store.files, m.bucket, m.s3, st, h') && h <= h'
  {
    hide Agree, Labelled, Fresh, EntryKey, Tracks, Unlinked, IsLeastRecent, Sum;
    var files := m.cache.store.files;
    var _, _ := m.Evict();
    var keys := set id <- files | id.bucket == m.bucket && id !in m.cache.store.files :: id.key;
    h' := h + [Evicted(keys)];
    NextTracked(files, m.cache.store.files, m.bucket, m.s3, m.s3, st, h, Evicted(keys));
  }

  method ServeClean(m: Mount, ghost st: Start, h: seq<Event>, now: int, n: nat, off: nat, len: nat, world: ReadWorld)
    returns (h': seq<Event>, r: Option<Served>)
    requires m.Valid() && m.soleWriter && Tracks(m.cache.store.files, m.bucket, m.s3, st, h) && n in m.handles
    modifies m.cache.meta, m.cache.store
    ensures m.Valid() && Tracks(m.cache.store.files, m.bucket, m.s3, st, h')
    ensures h <= h' && (r.Some? ==> r.value.past == h' && Explained(st, r.value))
    ensures r.Some? <==> !m.handles[n].dirty && !old(ReadFails(m, now, m.handles[n].key, world))
    ensures r.Some? ==> r.value.key == m.handles[n].key && r.value.off == off && r.value.len == len
  {
    hide Agree, Labelled, Fresh, EntryKey, ReadAt, CopyOf, ObjectOf, History;
    h', r := h, None;
    var x := m.handles[n];
    ghost var files := m.cache.store.files;
    CopyThere(m, x.key);
    var got := m.Read(now, n, off, len, world);
    if x.dirty || got.ReadError? {
      return;
    }
    if got.source == Fetched {
      h' := h + [Downloaded(x.key)];
      NextTracked(files, m.cache.store.files, m.bucket, m.s3, m.s3, st, h, Downloaded(x.key));
    }
    r := Some(Served(h', x.key, got.bytes, off, len));
    assert KeyTracked(m.cache.store.files, m.bucket, m.s3, st, h', x.key);
  }

  lemma CopyThere(m: Mount, key: string)
    requires m.Valid()
    ensures m.Copy(key).Some? <==> ObjKey(m.bucket, key) in m.cache.store.files
  {
  }

  // Any sequence of calls and uploads keeps to a history that starts as the mount does, and every
  // read on a clean handle is explained by the history up to it. So it returns the last flush of
  // its key, unless that flush's copy was evicted and the object fetched too early.
  method Session(m: Mount, calls: seq<Action>) 
    returns (h: seq<Event>, served: seq<Option<Served>>, ghost st: Start)
    requires m.Valid() && m.CacheFresh() && m.soleWriter
    modifies m, m.cache.meta, m.cache.store
    ensures m.Valid() && Tracks(m.cache.store.files, m.bucket, m.s3, st, h)
    ensures st.objects == map k <- old(m.s3) :: old(m.s3)[k].content
    ensures st.cached == set id <- old(m.cache.store.files) | id.bucket == m.bucket :: id.key
    ensures |served| == |calls|
    ensures forall r <- served :: r.Some? ==>
      && r.value.past <= h && History(st, r.value.past) && Explained(st, r.value)
      && forall f: nat :: LastFlush(r.value.past, r.value.key, f) ==> SeesFlush(r.value, f)
  {
    hide Agree, Labelled, Fresh, CopyOf, ObjectOf, KeyTracked, FetchedTooEarly;
    st := Start(map k <- m.s3 :: m.s3[k].content, set id <- m.cache.store.files | id.bucket == m.bucket :: id.key);
    h, served := [], [];
    StartTracked(m, st);
    for i := 0 to |calls|
      invariant m.Valid() && Tracks(m.cache.store.files, m.bucket, m.s3, st, h)
      invariant |served| == i
      invariant forall r <- served :: r.Some? ==>
        r.value.past <= h && History(st, r.value.past) && Explained(st, r.value)
    {
      var r;
      h, r := PerformCall(m, st, h, calls[i]);
      served := served + [r];
    }
    forall r <- served, f: nat | r.Some? && LastFlush(r.value.past, r.value.key, f) ensures SeesFlush(r.value, f) {
      MissesExactly(st, r.value.past, r.value.key, f);
    }
  }
}
