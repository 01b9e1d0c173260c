/**
 The catalog (internal/catalog/catalog.go): the table behind a negative cache and a listing cache,
 each method changing store and caches one after the other. A store call that fails is an answer
 of the environment; Delete is the one place where that can leave the caches wrong.
 */

// What a lookup through the caches finds, next to what the table holds.
module Answers {
  import opened Ids
  import opened Keys
  import opened Table
  import opened DirCache
  import opened Coherence

  // The first entry of a listing with this name.
  function Named(es: seq<Entry>, name: string): (r: Option<Entry>)
    ensures r.None? ==> forall e <- es :: e.name != name
  {
    if es == [] then None else if es[0].name == name then Some(es[0]) else Named(es[1..], name)
  }

  // Catalog.Lookup: a negative hit, a live listing of the parent that has the name, or the row.
  function Answer(rows: Rows, negative: bool, listing: Option<CachedListing>, bucket: string,
                  key: string): Option<Entry> {
    if negative then None
    else if listing.Some? && Named(listing.value.entries, Name(key)).Some? then Named(listing.value.entries, Name(key))
    else Row(rows, bucket, key)
  }

  // The rows that go by this name in this directory have keys that split.
  ghost predicate NamesSplit(rows: Rows, bucket: string, parent: string, name: string) {
    forall id <- rows :: id.bucket == bucket && rows[id].parent == parent && rows[id].name == name ==> Splits(id.key)
  }

  lemma {:induction false} NamedFirst(es: seq<Entry>, name: string, i: nat)
    requires i < |es| && es[i].name == name && forall j :: 0 <= j < i ==> es[j].name != name
    ensures Named(es, name) == Some(es[i])
  {
    if i == 0 {
    } else {
      NamedFirst(es[1..], name, i - 1);
    }
  }

  // A row that goes by the name is the file's or the directory's.
  lemma ChildRow(rows: Rows, bucket: string, prefix: string, name: string, e: Entry)
    requires RowsWellFormed(rows) && InDir(rows, bucket, prefix, e) && e.name == name
    requires CleanPrefix(prefix) && PlainName(name) && NamesSplit(rows, bucket, prefix, name)
    ensures Some(e) == Row(rows, bucket, prefix + name + (if e.isDir then "/" else ""))
  {
    SplitChild(prefix, name);
    TrimBack(e.key);
  }

  lemma ChildInDir(rows: Rows, bucket: string, prefix: string, name: string)
    requires RowsWellFormed(rows) && CleanPrefix(prefix) && PlainName(name)
    ensures var file, dir := Row(rows, bucket, prefix + name), Row(rows, bucket, prefix + name + "/");
      && (dir.Some? ==> InDir(rows, bucket, prefix, dir.value) && dir.value.isDir && dir.value.name == name)
      && (file.Some? ==> InDir(rows, bucket, prefix, file.value) && !file.value.isDir && file.value.name == name)
  {
    hide CleanPrefix, Parent, Name;
    SplitChild(prefix, name);
  }

  lemma OrderedAt(es: seq<Entry>, i: nat, j: nat)
    requires Ordered(es) && i < j < |es|
    ensures es[i].key != es[j].key && (es[j].isDir ==> es[i].isDir)
  {
  }

  lemma NamedDirFirst(es: seq<Entry>, name: string, dir: Option<Entry>, file: Option<Entry>)
    requires Ordered(es)
    requires forall e <- es | e.name == name :: Some(e) == if e.isDir then dir else file
    requires dir.Some? ==> dir.value in es && dir.value.isDir && dir.value.name == name
    requires file.Some? ==> file.value in es && !file.value.isDir && file.value.name == name
    ensures Named(es, name) == if dir.Some? then dir else file
  {
    hide Leq, Ordered;
    var first := if dir.Some? then dir else file;
    if first.Some? {
      var i :| 0 <= i < |es| && es[i] == first.value;
      forall j | 0 <= j < i ensures es[j].name != name {
        OrderedAt(es, j, i);
      }
      NamedFirst(es, name, i);
    } else if Named(es, name).Some? {
      NamedIn(es, name);
    }
  }

  // Only a file and a directory can share a name; a listing has the directory first.
  lemma NamedChild(rows: Rows, bucket: string, prefix: string, name: string, es: seq<Entry>)
    requires RowsWellFormed(rows) && IsListing(rows, bucket, prefix, es)
    requires CleanPrefix(prefix) && PlainName(name) && NamesSplit(rows, bucket, prefix, name)
    ensures var file, dir := Row(rows, bucket, prefix + name), Row(rows, bucket, prefix + name + "/");
      Named(es, name) == if dir.Some? then dir else file
  {
    hide CleanPrefix, PlainName, RowsWellFormed, NamesSplit, Ordered, Row, Named;
    var file, dir := Row(rows, bucket, prefix + name), Row(rows, bucket, prefix + name + "/");
    forall e <- es | e.name == name ensures Some(e) == if e.isDir then dir else file {
      ChildRow(rows, bucket, prefix, name, e);
      assert prefix + name + "" == prefix + name;
    }
    ChildInDir(rows, bucket, prefix, name);
    NamedDirFirst(es, name, dir, file);
  }

  lemma {:induction false} NamedIn(es: seq<Entry>, name: string)
    requires Named(es, name).Some?
    ensures Named(es, name).value in es && Named(es, name).value.name == name
  {
    if es[0].name != name {
      NamedIn(es[1..], name);
    }
  }

  // Catalog.Lookup is not the table's lookup: with the parent's listing at hand it may answer the
  // directory for the file, or the file for the missing directory - and only then.
  lemma AnswerExact(rows: Rows, negative: bool, listing: Option<CachedListing>, bucket: string, prefix: string,
                    name: string)
    requires RowsWellFormed(rows) && CleanPrefix(prefix) && PlainName(name) && NamesSplit(rows, bucket, prefix, name)
    requires listing.Some? ==> IsListing(rows, bucket, prefix, listing.value.entries)
    ensures !(negative && ObjKey(bucket, prefix + name) in rows) ==>
              (Answer(rows, negative, listing, bucket, prefix + name) == Row(rows, bucket, prefix + name)
               <==> negative || listing.None? || ObjKey(bucket, prefix + name + "/") !in rows)
    ensures !(negative && ObjKey(bucket, prefix + name + "/") in rows) ==>
              (Answer(rows, negative, listing, bucket, prefix + name + "/") == Row(rows, bucket, prefix + name + "/")
               <==> || negative || listing.None?
                    || ObjKey(bucket, prefix + name + "/") in rows || ObjKey(bucket, prefix + name) !in rows)
  {
    hide IsListing, CleanPrefix, Splits;
    SplitChild(prefix, name);
    if listing.Some? {
      NamedChild(rows, bucket, prefix, name, listing.value.entries);
    }
    assert ObjKey(bucket, prefix + name) in rows ==> rows[ObjKey(bucket, prefix + name)].key == prefix + name;
  }

  // Both happen, with nothing cached but the true listing: a file next to a directory of its name
  // is answered with the directory, and a directory that is not there with the file.
  lemma TwinsMislead(bucket: string, prefix: string, name: string, expires: int) returns (file: Entry, dir: Entry)
    requires CleanPrefix(prefix) && PlainName(name)
    ensures file.key == prefix + name && dir.key == prefix + name + "/"
    ensures var rows := map[ObjKey(bucket, file.key) := file, ObjKey(bucket, dir.key) := dir];
      var listing := CachedListing([dir, file], expires);
      && Coherent(rows, [], map[bucket := map[prefix := listing]]) && NamesSplit(rows, bucket, prefix, name)
      && Answer(rows, false, Some(listing), bucket, file.key) == Some(dir) != Row(rows, bucket, file.key)
    ensures var rows := map[ObjKey(bucket, file.key) := file];
      var listing := CachedListing([file], expires);
      && Coherent(rows, [], map[bucket := map[prefix := listing]]) && NamesSplit(rows, bucket, prefix, name)
      && Answer(rows, false, Some(listing), bucket, dir.key) == Some(file) && Row(rows, bucket, dir.key) == None
  {
    hide CleanPrefix, Parent, Name;
    SplitChild(prefix, name);
    file := Entry(prefix + name, prefix, name, 0, "", 0, false);
    dir := Entry(prefix + name + "/", prefix, name, 0, "", 0, true);
    assert [dir, file][0] == dir && [dir, file][1] == file && [file][0] == file;
    assert dir.key[|dir.key| - 1] == '/' && |dir.key| > |file.key|;
  }
}

module Catalog {
  import opened Ids
  import opened Keys
  import opened Table
  import opened DirCache
  import opened NegModel
  import opened NegCache
  import opened Listing
  import opened Coherence
  import opened Sync
  import opened Answers

  datatype Result<T> = Ok(value: T) | Err

  // The negative cache after a lookup of a key, and what the lookup found.
  function LookedUp(items: seq<Item>, now: int, found: Option<Entry>, bucket: string, key: string, ttl: int,
                    maxSize: nat): seq<Item> {
    if Holds(Live(items, now), bucket, key) then items
    else if found.None? then Added(Without(items, bucket, key), bucket, key, now + ttl, maxSize)
    else Without(items, bucket, key)
  }

  class Catalog {
    const store: Store
    const neg: NegCache
    const dirs: DirCache
    const sync: SyncManager

    // The caches agree with the table.
    ghost predicate Valid()
      reads store, neg, neg.lru, dirs
    {
      && neg.Valid()
      && Coherent(store.rows, neg.items, dirs.buckets)
      && sync.store == store && sync.dirs == dirs && sync.neg == neg
    }

    // ... and time has not gone back.
    ghost predicate Ready(now: int)
      reads store, neg, neg.lru, dirs
    {
      Valid() && neg.clock <= now
    }

    constructor (negTtl: int, negSize: nat, dirTtl: int, now: int)
      ensures Valid() && fresh(store) && fresh(neg) && fresh(dirs) && store.rows == map[] && neg.lru == []
      ensures neg.clock == now && neg.ttl == negTtl && neg.maxSize == negSize && dirs.ttl == dirTtl
    {
      var s := new Store();
      var n := new NegCache(negTtl, negSize, now);
      var d := new DirCache(dirTtl);
      var m := new SyncManager(s, d, n);
      store, neg, dirs, sync := s, n, d, m;
    }

    method ListDir(now: int, bucket: string, parent: string, ok: bool) returns (r: Result<seq<Entry>>)
      requires Ready(now)
      modifies dirs
      ensures Valid()
      ensures r.Ok? ==> IsListing(store.rows, bucket, parent, r.value)
      ensures r.Err? <==> !ok && Unexpired(At(old(dirs.buckets), bucket, parent), now).None?
      ensures forall b, p :: At(dirs.buckets, b, p) ==
                             (if b == bucket && p == parent && r.Ok? &&
                                Unexpired(At(old(dirs.buckets), b, p), now).None?
                              then Some(CachedListing(r.value, now + dirs.ttl)) else At(old(dirs.buckets), b, p))
    {
      hide IsListing, RowsWellFormed, NegCoherent;
      var cached := dirs.Get(now, bucket, parent);
      if cached.Some? {
        return Ok(cached.value);
      }
      if !ok {
        return Err;
      }
      var entries := store.ListDir(bucket, parent);
      dirs.Set(now, bucket, parent, entries);
      r := Ok(entries);
    }

    // Whether the key is cached as absent at this moment.
    ghost predicate Negative(bucket: string, key: string, now: int)
      reads neg
    {
      Holds(Live(neg.items, now), bucket, key)
    }

    // What the caches say about a key is true of the table.
    lemma CachesAgree(bucket: string, key: string, now: int)
      requires Valid()
      ensures RowsWellFormed(store.rows)
      ensures Negative(bucket, key, now) ==> ObjKey(bucket, key) !in store.rows
      ensures var l := Unexpired(At(dirs.buckets, bucket, Parent(key)), now);
        l.Some? ==> IsListing(store.rows, bucket, Parent(key), l.value.entries)
    {
      hide RowsWellFormed, IsListing, Parent, Filter;
      if Negative(bucket, key, now) {
        LiveNegative(store.rows, neg.items, bucket, key, now);
      }
      assert At(dirs.buckets, bucket, Parent(key)).Some? ==>
        IsListing(store.rows, bucket, Parent(key), At(dirs.buckets, bucket, Parent(key)).value.entries);
    }

    method Lookup(now: int, bucket: string, key: string, ok: bool) returns (r: Result<Option<Entry>>)
      requires Ready(now)
      modifies neg, neg.lru
      ensures Ready(now) && forall n <- neg.lru :: n in old(neg.lru) || fresh(n)
      ensures r.Ok? ==>
        r.value == Answer(store.rows, old(Negative(bucket, key, now)),
                          Unexpired(At(dirs.buckets, bucket, Parent(key)), now), bucket, key)
      ensures r.Err? ==> !ok
      ensures neg.items ==
        if r.Ok? then LookedUp(old(neg.items), now, r.value, bucket, key, neg.ttl, neg.maxSize)
        else Without(old(neg.items), bucket, key)
    {
      hide IsListing, RowsWellFormed, NegCoherent, DirsCoherent, Filter, Added, Parent, Name, NegCache.Valid, Holds;
      hide Live, Unexpired;
      var absent := neg.Contains(now, bucket, key);
      FilteredNegatives(store.rows, old(neg.items), NotKey(bucket, key));
      if absent {
        return Ok(None);
      }
      var parent, name := Parent(key), Name(key);
      var cached := dirs.Get(now, bucket, parent);
      if cached.Some? {
        var e := FindNamed(cached.value, name);
        if e.Some? {
          return Ok(e);
        }
      }
      if !ok {
        return Err;
      }
      var entry := store.Lookup(bucket, key);
      if entry.None? {
        assert forall i :: 0 <= i < |neg.lru| ==> neg.lru[i] in old(neg.lru);
        AddedNegatives(store.rows, neg.items, bucket, key, now + neg.ttl, neg.maxSize);
        neg.Add(now, bucket, key);
      }
      r := Ok(entry);
    }

    method HasDir(bucket: string, parent: string, ok: bool) returns (r: Result<bool>)
      ensures r == if ok then Ok(store.HasDir(bucket, parent)) else Err
    {
      r := if ok then Ok(store.HasDir(bucket, parent)) else Err;
    }

    method Put(bucket: string, e: Entry, ok: bool) returns (r: bool)
      requires Valid() && WellFormed(e)
      modifies store, neg, dirs
      ensures Valid() && neg.clock == old(neg.clock) && forall n <- neg.lru :: n in old(neg.lru)
      ensures r == ok && store.rows == if ok then PutRow(old(store.rows), bucket, e) else old(store.rows)
      ensures neg.items == if ok then Without(old(neg.items), bucket, e.key) else old(neg.items)
      ensures forall b, p ::
        At(dirs.buckets, b, p) == (if ok && b == bucket && p == e.parent then None else At(old(dirs.buckets), b, p))
    {
      hide Coherent, Filter;
      if !ok {
        return false;
      }
      store.Put(bucket, e);
      neg.Remove(bucket, e.key);
      dirs.Invalidate(bucket, e.parent);
      PutKeeps(old(store.rows), old(neg.items), old(dirs.buckets), dirs.buckets, bucket, e);
      r := true;
    }

    method PutBatch(bucket: string, entries: seq<Entry>, ok: bool) returns (r: bool)
      requires Valid() && forall e <- entries :: WellFormed(e)
      modifies store, neg, dirs
      ensures Valid() && neg.clock == old(neg.clock) && forall n <- neg.lru :: n in old(neg.lru)
      ensures r == ok && store.rows == if ok then PutRows(old(store.rows), bucket, entries) else old(store.rows)
      ensures neg.items ==
        if ok then Filter(old(neg.items), NotAmong(bucket, set e <- entries :: e.key)) else old(neg.items)
      ensures var parents := set e <- entries :: e.parent;
        forall b, p ::
          At(dirs.buckets, b, p) == (if ok && b == bucket && p in parents then None else At(old(dirs.buckets), b, p))
    {
      hide Coherent, Filter;
      if !ok {
        return false;
      }
      store.PutBatch(bucket, entries);
      ForgetBatch(bucket, entries);
      BatchKeeps(old(store.rows), old(neg.items), old(dirs.buckets), dirs.buckets, bucket, entries);
      r := true;
    }

    // The loop over a batch that has been stored: every key, and every parent once.
    method ForgetBatch(bucket: string, entries: seq<Entry>)
      requires neg.Valid()
      modifies neg, dirs
      ensures neg.Valid() && neg.clock == old(neg.clock) && forall n <- neg.lru :: n in old(neg.lru)
      ensures neg.items == Filter(old(neg.items), NotAmong(bucket, set e <- entries :: e.key))
      ensures var parents := set e <- entries :: e.parent;
        forall b, p ::
          At(dirs.buckets, b, p) == (if b == bucket && p in parents then None else At(old(dirs.buckets), b, p))
    {
      hide Filter, NegCache.Valid;
      var seenParents := {};
      ghost var keys := {};
      ghost var was := neg.items;
      FilterAll(was, NotAmong(bucket, keys));
      for i := 0 to |entries|
        invariant neg.Valid() && neg.clock == old(neg.clock) && forall n <- neg.lru :: n in old(neg.lru)
        invariant keys == (set e <- entries[..i] :: e.key) && seenParents == (set e <- entries[..i] :: e.parent)
        invariant neg.items == Filter(was, NotAmong(bucket, keys))
        invariant forall b, p ::
          At(dirs.buckets, b, p) == (if b == bucket && p in seenParents then None else At(old(dirs.buckets), b, p))
      {
        var e := entries[i];
        assert entries[..i + 1] == entries[..i] + [e];
        FilterTwice(was, NotAmong(bucket, keys), NotKey(bucket, e.key), NotAmong(bucket, keys + {e.key}));
        neg.Remove(bucket, e.key);
        keys := keys + {e.key};
        if e.parent !in seenParents {
          seenParents := seenParents + {e.parent};
          dirs.Invalidate(bucket, e.parent);
        }
      }
      assert entries[..|entries|] == entries;
    }

    // The row is read first to know its directory, and an error there is ignored.
    method Delete(bucket: string, key: string, readOk: bool, ok: bool) returns (r: bool)
      requires neg.Valid()
      modifies store, neg, dirs
      ensures neg.Valid() && neg.clock == old(neg.clock) && forall n <- neg.lru :: n in old(neg.lru)
      ensures r == ok && store.rows == if ok then old(store.rows) - {ObjKey(bucket, key)} else old(store.rows)
      ensures neg.items == if ok then Without(old(neg.items), bucket, key) else old(neg.items)
      ensures var row := Row(old(store.rows), bucket, key);
        forall b, p ::
          At(dirs.buckets, b, p) ==
          if readOk && ok && row.Some? && b == bucket && p == row.value.parent then None
          else At(old(dirs.buckets), b, p)
      ensures old(Valid()) ==>
        (Valid() <==>
         readOk || !ok || Row(old(store.rows), bucket, key).None? || At(old(dirs.buckets), bucket, Parent(key)).None?)
    {
      hide Coherent, Filter, Parent;
      var entry: Option<Entry> := None;
      if readOk {
        entry := store.Lookup(bucket, key);
      }
      if !ok {
        return false;
      }
      store.Delete(bucket, key);
      neg.Remove(bucket, key);
      if entry.Some? {
        dirs.Invalidate(bucket, entry.value.parent);
      }
      r := true;
      if !old(Valid()) {
      } else if readOk {
        DeleteKeeps(old(store.rows), old(neg.items), old(dirs.buckets), dirs.buckets, bucket, key);
      } else {
        BlindDeleteBreaks(old(store.rows), old(neg.items), old(dirs.buckets), bucket, key);
      }
    }

    // The rows that go are exactly those of the bucket whose key matches. LIKE may take more rows than those
    // under the prefix; the bucket's listings all go, so that
    // does no harm to the caches.
    method DeletePrefix(bucket: string, prefix: string, ok: bool) returns (r: bool)
      requires Valid()
      modifies store, neg, dirs
      ensures Valid() && neg.clock == old(neg.clock) && forall n <- neg.lru :: n in old(neg.lru)
      ensures r == ok
      ensures store.rows ==
        if ok then old(store.rows) - WithPrefix(old(store.rows), bucket, prefix) else old(store.rows)
      ensures forall id <- old(store.rows) ::
        id in store.rows <==> !(ok && id.bucket == bucket && Like(prefix + "%", id.key))
      ensures ok ==> forall id <- store.rows :: id.bucket == bucket ==> !(prefix <= id.key)
      ensures neg.items == if ok then Filter(old(neg.items), NotUnder(bucket, prefix)) else old(neg.items)
      ensures forall b, p :: At(dirs.buckets, b, p) == (if ok && b == bucket then None else At(old(dirs.buckets), b, p))
    {
      hide Coherent, Filter;
      if !ok {
        return false;
      }
      store.DeletePrefix(bucket, prefix);
      neg.RemovePrefix(bucket, prefix);
      dirs.InvalidateAll(bucket);
      DeletePrefixKeeps(old(store.rows), old(neg.items), old(dirs.buckets), dirs.buckets, bucket, prefix);
      forall id <- store.rows | id.bucket == bucket ensures !(prefix <= id.key) {
        if prefix <= id.key {
          LikePrefix(prefix, id.key);
        }
      }
      r := true;
    }

    // A pass that fails on a later page leaves the caches as they are: right exactly if the pages
    // before it do not contradict them.
    method SyncPrefix(bucket: string, prefix: string, registered: bool, replies: seq<Response>)
      returns (ok: bool, ghost n: nat)
      requires Valid() && Replies(prefix, replies)
      modifies store, neg, dirs
      ensures neg.Valid() && neg.clock == old(neg.clock) && forall x <- neg.lru :: x in old(neg.lru)
      ensures Ingested(old(store.rows), store.rows, bucket, Maker.SyncPrefix, prefix, replies, n)
      ensures if ok then !registered || GoesThrough(Maker.SyncPrefix, prefix, replies, |replies|)
              else registered && StopsAt(Maker.SyncPrefix, prefix, replies, n)
      ensures ok ==> n == if registered then |replies| else 0
      ensures neg.items ==
        if registered && ok then Filter(old(neg.items), NotUnder(bucket, prefix)) else old(neg.items)
      ensures forall b, p ::
        At(dirs.buckets, b, p) ==
        if registered && ok && b == bucket && p == prefix then None else At(old(dirs.buckets), b, p)
      ensures CleanPrefix(prefix) ==>
        (Valid() <==> ok || BatchHarmless(old(store.rows), old(neg.items), old(dirs.buckets), bucket, prefix,
                                          FirstRows(Maker.SyncPrefix, prefix, replies, n)))
    {
      hide Coherent, CleanPrefix, Replies, FirstRows, PutRows, BatchHarmless, Stops, Filter;
      ok, n := sync.SyncPrefix(bucket, prefix, registered, replies);
      if CleanPrefix(prefix) && !ok {
        ghost var es := FirstRows(Maker.SyncPrefix, prefix, replies, n);
        forall e <- es ensures WellFormed(e) && e.parent == prefix {
          FirstRowsWellFormed(Maker.SyncPrefix, prefix, replies, n, e);
        }
        UnclearedBatch(old(store.rows), old(neg.items), old(dirs.buckets), bucket, prefix, es);
      }
    }

    // One tick of either reaper.
    method ReapNegatives(now: int)
      requires Ready(now)
      modifies neg
      ensures Ready(now) && forall n <- neg.lru :: n in old(neg.lru)
      ensures neg.items == Live(old(neg.items), now)
    {
      hide RowsWellFormed, DirsCoherent, Filter;
      FilteredNegatives(store.rows, neg.items, NegModel.LiveAt(now));
      neg.Reap(now);
    }

    method ReapListings(now: int)
      requires Valid()
      modifies dirs
      ensures Valid()
      ensures forall b, p :: At(dirs.buckets, b, p) == Unexpired(At(old(dirs.buckets), b, p), now)
    {
      hide RowsWellFormed, NegCoherent, IsListing;
      dirs.Reap(now);
    }
  }

  method FindNamed(es: seq<Entry>, name: string) returns (r: Option<Entry>)
    ensures r == Named(es, name)
  {
    for i := 0 to |es|
      invariant forall j :: 0 <= j < i ==> es[j].name != name
    {
      if es[i].name == name {
        NamedFirst(es, name, i);
        return Some(es[i]);
      }
    }
    r := None;
    if Named(es, name).Some? {
      NamedIn(es, name);
    }
  }

  // ---------------------------------------------------------------- any sequence of calls

  datatype Op =
    | DoLookup(key: string, ok: bool)
    | DoListDir(parent: string, ok: bool)
    | DoPut(e: Entry, ok: bool)
    | DoPutBatch(es: seq<Entry>, ok: bool)
    | DoDelete(key: string, readOk: bool, ok: bool)
    | DoDeletePrefix(prefix: string, ok: bool)
    | DoSyncPrefix(prefix: string, registered: bool, replies: seq<Response>)
    | DoReapNegatives
    | DoReapListings

  // A call at a moment.
  datatype Call = Call(now: int, bucket: string, op: Op)

  // Entries are split from their keys, and a refresh is of a clean prefix, as every caller has it.
  predicate Proper(c: Call) {
    match c.op
    case DoPut(e, _) => WellFormed(e)
    case DoPutBatch(es, _) => forall e <- es :: WellFormed(e)
    case DoSyncPrefix(prefix, _, replies) => CleanPrefix(prefix) && Replies(prefix, replies)
    case _ => true
  }

  // The calls that can do harm, by what they meet: a delete that cannot read its row, where the
  // listing that has the row is cached; a refresh that fails on a later page, where the pages before
  // it contradict a cache.
  ghost predicate Harmful(rows: Rows, items: seq<Item>, buckets: Listings, c: Call) {
    match c.op
    case DoDelete(key, readOk, ok) =>
      !readOk && ok && Row(rows, c.bucket, key).Some? && At(buckets, c.bucket, Parent(key)).Some?
    case DoSyncPrefix(prefix, registered, replies) =>
      registered && exists n ::
        && StopsAt(Maker.SyncPrefix, prefix, replies, n)
        && !BatchHarmless(rows, items, buckets, c.bucket, prefix, FirstRows(Maker.SyncPrefix, prefix, replies, n))
    case _ => false
  }

  // Calls that cannot do harm whatever they meet.
  predicate Safe(c: Call) {
    match c.op
    case DoDelete(_, readOk, ok) => readOk || !ok
    case DoSyncPrefix(prefix, registered, replies) =>
      || !registered || GoesThrough(Maker.SyncPrefix, prefix, replies, |replies|)
      || Stops(Maker.SyncPrefix, prefix, replies[0])
    case _ => true
  }

  // The caches agree with the table after every run, failed table calls included, as long as a
  // delete can read the row it deletes and a refresh reaches its last page or fails on its first.
  method Session(c: Catalog, calls: seq<Call>)
    requires c.Valid() && (calls != [] ==> c.neg.clock <= calls[0].now)
    requires forall i :: 0 <= i < |calls| ==> Proper(calls[i]) && Safe(calls[i])
    requires forall i, j :: 0 <= i < j < |calls| ==> calls[i].now <= calls[j].now
    modifies c.store, c.neg, c.neg.lru, c.dirs
    ensures c.Valid()
  {
    hide Catalog.Valid, CleanPrefix, WellFormed, Replies, Harmful, Safe, Coherent;
    for i := 0 to |calls|
      invariant c.Valid() && (i < |calls| ==> c.neg.clock <= calls[i].now)
      invariant forall n <- c.neg.lru :: n in old(c.neg.lru) || fresh(n)
    {
      assert Proper(calls[i]) && Safe(calls[i]);
      assert forall j :: 0 <= j < |c.neg.lru| ==> c.neg.lru[j] in old(c.neg.lru) || fresh(c.neg.lru[j]);
      SafeIsHarmless(c.store.rows, c.neg.items, c.dirs.buckets, calls[i]);
      Perform(c, calls[i]);
    }
  }

  lemma SafeIsHarmless(rows: Rows, items: seq<Item>, buckets: Listings, c: Call)
    requires Proper(c) && Safe(c)
    ensures !Harmful(rows, items, buckets, c)
  {
    hide Row, Parent, CleanPrefix, PageFor, Stops;
    if c.op.DoSyncPrefix? && c.op.registered {
      var prefix, replies := c.op.prefix, c.op.replies;
      assert replies[..0] == [];
      forall n | StopsAt(Maker.SyncPrefix, prefix, replies, n) ensures n == 0 {
      }
    }
  }

  // One call: the caches agree with the table afterwards exactly if it was not harmful.
  method Perform(c: Catalog, call: Call)
    requires c.Ready(call.now) && Proper(call)
    modifies c.store, c.neg, c.neg.lru, c.dirs
    ensures c.neg.Valid() && c.neg.clock <= call.now
    ensures forall n <- c.neg.lru :: n in old(c.neg.lru) || fresh(n)
    ensures c.Valid() <==> !Harmful(old(c.store.rows), old(c.neg.items), old(c.dirs.buckets), call)
  {
    hide Coherent, CleanPrefix, WellFormed, Replies, BatchHarmless, FirstRows, Row, Stops;
    var now, bucket := call.now, call.bucket;
    match call.op {
      case DoLookup(key, ok) => var _ := c.Lookup(now, bucket, key, ok);
      case DoListDir(parent, ok) => var _ := c.ListDir(now, bucket, parent, ok);
      case DoPut(e, ok) => var _ := c.Put(bucket, e, ok);
      case DoPutBatch(es, ok) => var _ := c.PutBatch(bucket, es, ok);
      case DoDelete(key, readOk, ok) => var _ := c.Delete(bucket, key, readOk, ok);
      case DoDeletePrefix(prefix, ok) => var _ := c.DeletePrefix(bucket, prefix, ok);
      case DoSyncPrefix(prefix, registered, replies) =>
        var ok, n := c.SyncPrefix(bucket, prefix, registered, replies);
        OneStop(prefix, replies);
      case DoReapNegatives => c.ReapNegatives(now);
      case DoReapListings => c.ReapListings(now);
    }
  }

  lemma OneStop(prefix: string, replies: seq<Response>)
    ensures forall n, m ::
      StopsAt(Maker.SyncPrefix, prefix, replies, n) && StopsAt(Maker.SyncPrefix, prefix, replies, m) ==> n == m
    ensures forall n ::
      StopsAt(Maker.SyncPrefix, prefix, replies, n) ==> !GoesThrough(Maker.SyncPrefix, prefix, replies, |replies|)
  {
    hide Stops;
  }
}
