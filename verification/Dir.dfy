/**
 Directories (internal/fuse/dir.go): resolving a name through the catalog and then S3, and the
 operations that change S3 and the catalog.
 */

// The bucket. A request is atomic, and one that fails leaves the bucket as it was.
module S3 {
  import opened Listing

  class S3Bucket {
    var objects: Bucket

    constructor ()
      ensures objects == map[]
    {
      objects := map[];
    }

    method PutObject(key: string, meta: Meta, ok: bool)
      modifies this
      ensures objects == if ok then old(objects)[key := meta] else old(objects)
    {
      if ok { objects := objects[key := meta]; }
    }

    // Deleting what is not there succeeds too.
    method DeleteObject(key: string, ok: bool)
      modifies this
      ensures objects == if ok then old(objects) - {key} else old(objects)
    {
      if ok { objects := objects - {key}; }
    }

    // A copy of something that is not there fails, and S3 refuses a plain copy of an object onto
    // itself.
    method CopyObject(src: string, dst: string, etag: string, modified: int, ok: bool) returns (done: bool)
      modifies this
      ensures done <==> ok && src in old(objects) && src != dst
      ensures objects ==
        if done then old(objects)[dst := Meta(old(objects)[src].size, etag, modified)] else old(objects)
    {
      done := ok && src in objects && src != dst;
      if done { objects := objects[dst := Meta(objects[src].size, etag, modified)]; }
    }
  }
}

module Dir {
  import opened Ids
  import opened Keys
  import opened Table
  import opened DirCache
  import opened NegModel
  import opened NegCache
  import opened Listing
  import opened Coherence
  import opened Answers
  import opened Sync
  import opened Catalog
  import opened S3

  // What a name in a directory is.
  datatype Found = Directory | File(size: int, etag: string, modified: int) | Missing

  // The three steps on the table alone: a directory row, a row below it, a file row.
  function OnTable(rows: Rows, bucket: string, prefix: string, name: string): Found {
    var dir, file := Row(rows, bucket, prefix + name + "/"), Row(rows, bucket, prefix + name);
    if dir.Some? && dir.value.isDir then Directory
    else if HasChildren(rows, bucket, prefix + name + "/") then Directory
    else if file.Some? && !file.value.isDir then File(file.value.size, file.value.etag, file.value.modified)
    else Missing
  }

  // What the bucket has under the name: anything beyond a marker makes a directory.
  function InBucket(s3: Bucket, key: string): Found {
    if exists k <- s3 :: key + "/" < k then Directory
    else if key in s3 then File(s3[key].size, s3[key].etag, s3[key].modified)
    else Missing
  }

  // A table that has just ingested the directory, whatever the pages, answers for each name what the
  // bucket has: a directory if there are keys below it or its marker, else the object, all three values
  // of it; a name the bucket does not have is what it was.
  lemma SyncedLookup(m: Maker, rows: Rows, bucket: string, s3: Bucket, prefix: string, pages: seq<Page>, name: string)
    requires IsPagination(s3, prefix, pages) && CleanPrefix(prefix) && PlainName(name) && RowsWellFormed(rows)
    requires OnTable(rows, bucket, prefix, name) != Directory
    ensures var key := prefix + name;
      OnTable(PutRows(rows, bucket, Entries(pages, prefix, m)), bucket, prefix, name) ==
      if exists k <- s3 :: key + "/" <= k then Directory
      else if key in s3 then File(s3[key].size, s3[key].etag, s3[key].modified)
      else OnTable(rows, bucket, prefix, name)
  {
    hide CleanPrefix, IsPagination, Entries, Parent, Name;
    var es, key, dir := Entries(pages, prefix, m), prefix + name, prefix + name + "/";
    IngestedRow(m, rows, bucket, s3, prefix, pages, name);
    PagesMakeRows(m, s3, prefix, pages);
    PutRowsWellFormed(rows, bucket, es);
    BatchElsewhere(rows, bucket, es, bucket, dir);
    SameChildren(rows, PutRows(rows, bucket, es), bucket, dir);
  }

  // Next to the bucket itself, which a later fallback would ask: the two agree, unless all there is of
  // the directory is its marker.
  lemma SyncedAgrees(m: Maker, rows: Rows, bucket: string, s3: Bucket, prefix: string, pages: seq<Page>, name: string)
    requires IsPagination(s3, prefix, pages) && CleanPrefix(prefix) && PlainName(name) && RowsWellFormed(rows)
    requires OnTable(rows, bucket, prefix, name) == Missing
    ensures OnTable(PutRows(rows, bucket, Entries(pages, prefix, m)), bucket, prefix, name) ==
            InBucket(s3, prefix + name) <==>
              !(prefix + name + "/" in s3 && forall k <- s3 :: !(prefix + name + "/" < k))
  {
    hide IsPagination, OnTable, CleanPrefix, Entries, PutRows;
    SyncedLookup(m, rows, bucket, s3, prefix, pages, name);
    var dir := prefix + name + "/";
    assert forall k <- s3 :: dir <= k <==> k == dir || dir < k;
  }

  lemma SameChildren(rows: Rows, rows': Rows, bucket: string, parent: string)
    requires RowsWellFormed(rows) && RowsWellFormed(rows') && SameDir(rows, rows', bucket, parent)
    ensures HasChildren(rows, bucket, parent) <==> HasChildren(rows', bucket, parent)
  {
    if id :| id in rows && id.bucket == bucket && rows[id].parent == parent {
      assert InDir(rows, bucket, parent, rows[id]);
    }
    if id :| id in rows' && id.bucket == bucket && rows'[id].parent == parent {
      assert InDir(rows', bucket, parent, rows'[id]);
    }
  }

  // The first page for a prefix: S3 fills it as far as there is anything, so it shows more than
  // the directory's own marker if there is more.
  ghost predicate FirstPage(s3: Bucket, prefix: string, page: Page) {
    && (forall o <- page.objects :: IsObject(s3, prefix, o))
    && (forall cp <- page.prefixes :: IsCommonPrefix(s3, prefix, cp))
    && ((exists k <- s3 :: prefix < k) ==> Shows(page, prefix))
  }

  predicate Shows(page: Page, prefix: string) {
    page.prefixes != [] || Seen(page.objects, prefix) != []
  }

  lemma ShowsMeans(s3: Bucket, prefix: string, page: Page)
    requires FirstPage(s3, prefix, page)
    ensures Shows(page, prefix) <==> exists k <- s3 :: prefix < k
    ensures PageFor(prefix, page)
  {
    if page.prefixes != [] {
      assert IsCommonPrefix(s3, prefix, page.prefixes[0]);
      var k :| k in s3 && page.prefixes[0] <= k;
      assert prefix < k;
    } else if Seen(page.objects, prefix) != [] {
      var o := Seen(page.objects, prefix)[0];
      assert o in Seen(page.objects, prefix) && IsObject(s3, prefix, o);
      assert prefix < o.key;
    }
  }

  // What the catalog stage of a lookup meets: the table, and for each of its two calls of
  // Catalog.Lookup whether the key is cached as absent and the live listing of the directory.
  datatype View = View(
    rows: Rows, bucket: string, prefix: string, name: string,
    negative1: bool, listing1: Option<CachedListing>,
    negative2: bool, listing2: Option<CachedListing>)
  {
    function DirKey(): string { prefix + name + "/" }

    function FileKey(): string { prefix + name }

    function DirAnswer(): Option<Entry> { Answer(rows, negative1, listing1, bucket, DirKey()) }

    function FileAnswer(): Option<Entry> { Answer(rows, negative2, listing2, bucket, FileKey()) }

    function Table(): Found { OnTable(rows, bucket, prefix, name) }

    // The three steps through the caches.
    function Stage(): Found {
      if DirAnswer().Some? && DirAnswer().value.isDir then Directory
      else if HasChildren(rows, bucket, DirKey()) then Directory
      else if FileAnswer().Some? && !FileAnswer().value.isDir then AsFile(FileAnswer().value)
      else Missing
    }

    // The caches agree with the table, and the name is one the kernel passes.
    ghost predicate Sound() {
      && RowsWellFormed(rows) && CleanPrefix(prefix) && PlainName(name)
      && (listing1.Some? ==> IsListing(rows, bucket, prefix, listing1.value.entries))
      && (listing2.Some? ==> IsListing(rows, bucket, prefix, listing2.value.entries))
      && (negative1 ==> Row(rows, bucket, DirKey()).None?)
      && (negative2 ==> Row(rows, bucket, FileKey()).None?)
    }

    // Where there is no directory: the first call is misled by a listing that shows one by this
    // name, the second by a listing that shows something other than the file row.
    predicate Misled1() {
      var first := ShownIn(listing1);
      !negative1 && first.Some? && first.value.isDir
    }

    predicate Misled2() {
      var first, file := ShownIn(listing2), Row(rows, bucket, FileKey());
      && !negative2 && first.Some?
      && if first.value.isDir then file.Some? else file.None? || AsFile(file.value) != AsFile(first.value)
    }

    function ShownIn(l: Option<CachedListing>): Option<Entry> {
      if l.Some? then Named(l.value.entries, name) else None
    }
  }

  function AsFile(e: Entry): Found {
    File(e.size, e.etag, e.modified)
  }

  // Exactly when the catalog stage answers what the table alone answers: there is a directory, or
  // neither call is misled by a listing.
  lemma StageExactly(v: View)
    requires v.Sound()
    ensures v.Stage() == v.Table() <==> v.Table() == Directory || (!v.Misled1() && !v.Misled2())
  {
    hide IsListing, CleanPrefix, NoSlash, Parent, Name, RowsWellFormed, Named;
    SplitChild(v.prefix, v.name);
    ChildInDir(v.rows, v.bucket, v.prefix, v.name);
    if v.listing1.Some? { DirNamedFirst(v.rows, v.bucket, v.prefix, v.name, v.listing1.value.entries); }
  }

  // If the directory has a row, a listing has a directory first by its name.
  lemma DirNamedFirst(rows: Rows, bucket: string, prefix: string, name: string, es: seq<Entry>)
    requires RowsWellFormed(rows) && IsListing(rows, bucket, prefix, es) && CleanPrefix(prefix) && PlainName(name)
    ensures Row(rows, bucket, prefix + name + "/").Some? ==> Named(es, name).Some? && Named(es, name).value.isDir
  {
    hide CleanPrefix, PlainName, RowsWellFormed, Ordered, Named;
    var dir := Row(rows, bucket, prefix + name + "/");
    ChildInDir(rows, bucket, prefix, name);
    if dir.Some? {
      assert dir.value in es;
      NamedBefore(es, name, dir.value);
    }
  }

  lemma NamedBefore(es: seq<Entry>, name: string, dir: Entry)
    requires Ordered(es) && dir in es && dir.isDir && dir.name == name
    ensures Named(es, name).Some? && Named(es, name).value.isDir
  {
    hide Leq, Ordered;
    if Named(es, name).Some? {
      NamedAt(es, name);
      var i :| 0 <= i < |es| && es[i] == Named(es, name).value && forall j :: 0 <= j < i ==> es[j].name != name;
      var k :| 0 <= k < |es| && es[k] == dir;
      if i < k { OrderedAt(es, i, k); }
    }
  }

  lemma {:induction false} NamedAt(es: seq<Entry>, name: string)
    requires Named(es, name).Some?
    ensures exists i :: 0 <= i < |es| && es[i] == Named(es, name).value && forall j :: 0 <= j < i ==> es[j].name != name
  {
    if es[0].name != name {
      NamedAt(es[1..], name);
      var i :| 0 <= i < |es| - 1 && es[1..][i] == Named(es[1..], name).value &&
               forall j :: 0 <= j < i ==> es[1..][j].name != name;
      assert es[i + 1] == Named(es, name).value;
      forall j | 0 <= j < i + 1 ensures es[j].name != name {
        if j > 0 { assert es[j] == es[1..][j - 1]; }
      }
    } else {
      assert es[0] == Named(es, name).value;
    }
  }

  // So it does where the rows that go by the name have keys that split, whatever is cached:
  // Catalog.Lookup may give the file for the missing directory, but IsDir tells; and where it would
  // give the directory for the file, the directory has been found before.
  lemma StageIsTable(v: View)
    requires v.Sound() && NamesSplit(v.rows, v.bucket, v.prefix, v.name)
    ensures v.Stage() == v.Table()
  {
    hide IsListing, CleanPrefix, PlainName, NamesSplit, Named, View.Stage;
    StageExactly(v);
    ChildInDir(v.rows, v.bucket, v.prefix, v.name);
    if v.listing1.Some? { NamedChild(v.rows, v.bucket, v.prefix, v.name, v.listing1.value.entries); }
    if v.listing2.Some? { NamedChild(v.rows, v.bucket, v.prefix, v.name, v.listing2.value.entries); }
  }

  // A row whose key does not split can mislead it: the listing has the name, the table no such key.
  lemma UnsplitRowMisleads(bucket: string, prefix: string, name: string, e: Entry, l: CachedListing)
    requires CleanPrefix(prefix) && prefix != "" && PlainName(name)
    requires e.key == prefix + "/" + name && WellFormed(e) && l.entries == [e]
    ensures var rows: Rows := map[ObjKey(bucket, e.key) := e];
      && RowsWellFormed(rows) && IsListing(rows, bucket, prefix, l.entries)
      && Answer(rows, false, Some(l), bucket, prefix + name) == Some(e) && !e.isDir
      && OnTable(rows, bucket, prefix, name) == Missing
  {
    hide CleanPrefix, Parent, Name, Splits;
    DoubledSlashCollides(prefix, name);
    SplitChild(prefix, name);
    assert l.entries[0] == e;
    assert |prefix + name + "/"| == |e.key| && (prefix + name + "/")[|e.key| - 1] == '/';
    assert prefix + name + "/" != prefix by { assert |prefix + name + "/"| > |prefix|; }
  }

  // ListObjects and HeadObject as the fallback meets them.
  datatype ListAnswer = ListFailed(notFound: bool) | ListPage(page: Page)
  datatype LookupResult = Is(found: Found) | NoEntry | LookupError

  function AsResult(f: Found): LookupResult {
    if f == Missing then NoEntry else Is(f)
  }

  // Each object and each common prefix on the page has its row, field by field.
  ghost predicate ShownRows(rows: Rows, bucket: string, prefix: string, page: Page) {
    && (forall o <- page.objects :: o.key != prefix ==> ShowsObject(rows, bucket, prefix, o))
    && (forall cp <- page.prefixes :: ShowsPrefix(rows, bucket, prefix, cp))
  }

  predicate ShowsObject(rows: Rows, bucket: string, prefix: string, o: Object) {
    && prefix < o.key
    && Row(rows, bucket, o.key) ==
         Some(Entry(o.key, prefix, o.key[|prefix|..], o.meta.size, o.meta.etag, o.meta.modified, false))
  }

  predicate ShowsPrefix(rows: Rows, bucket: string, prefix: string, cp: string) {
    && prefix < cp
    && var name := cp[|prefix|..|cp| - 1];
    && (name != "" ==> Row(rows, bucket, cp) == Some(Entry(cp, prefix, name, 0, "", 0, true)))
  }

  lemma PageRows(rows: Rows, bucket: string, s3: Bucket, prefix: string, page: Page)
    requires FirstPage(s3, prefix, page) && CleanPrefix(prefix)
    ensures ShownRows(PutRows(rows, bucket, PageEntries(Ingest, prefix, SeenPage(page, prefix))), bucket, prefix, page)
  {
    hide CleanPrefix, PutRows, PageEntries, ShowsObject, ShowsPrefix;
    var rows' := PutRows(rows, bucket, PageEntries(Ingest, prefix, SeenPage(page, prefix)));
    forall o <- page.objects | o.key != prefix ensures ShowsObject(rows', bucket, prefix, o) {
      ObjectRow(rows, bucket, s3, prefix, page, o);
    }
    forall cp <- page.prefixes ensures ShowsPrefix(rows', bucket, prefix, cp) {
      PrefixRow(rows, bucket, s3, prefix, page, cp);
    }
  }

  lemma ObjectRow(rows: Rows, bucket: string, s3: Bucket, prefix: string, page: Page, o: Object)
    requires FirstPage(s3, prefix, page) && CleanPrefix(prefix) && o in page.objects && o.key != prefix
    ensures ShowsObject(PutRows(rows, bucket, PageEntries(Ingest, prefix, SeenPage(page, prefix))), bucket, prefix, o)
  {
    hide CleanPrefix, Parent, Name, PutRows, IsCommonPrefix, Groups;
    var seen := SeenPage(page, prefix);
    var es := PageEntries(Ingest, prefix, seen);
    assert IsObject(s3, prefix, o);
    NoDirectDir(prefix, o.key);
    assert o.key == prefix + o.key[|prefix|..];
    RowFields(prefix, o.key[|prefix|..], o.meta, 0);
    assert o in seen.objects && Make(Ingest, prefix, o) == Some(FileEntry(o));
    MadeOf(Ingest, prefix, seen.objects, FileEntry(o));
    PutRowsRow(rows, bucket, es, bucket, o.key);
    forall e <- es | e.key == o.key ensures e == FileEntry(o) {
      DirEntryOf(seen.prefixes, e);
      MadeOf(Ingest, prefix, seen.objects, e);
      if e !in DirEntries(seen.prefixes) {
        var p :| p in seen.objects && Make(Ingest, prefix, p) == Some(e);
        assert IsObject(s3, prefix, p);
      } else {
        GroupIsDir(s3, prefix, page, e.key);
      }
    }
  }

  lemma GroupIsDir(s3: Bucket, prefix: string, page: Page, cp: string)
    requires FirstPage(s3, prefix, page) && cp in page.prefixes
    ensures Groups(prefix, cp) && IsDirKey(cp)
  {
  }

  lemma PrefixRow(rows: Rows, bucket: string, s3: Bucket, prefix: string, page: Page, cp: string)
    requires FirstPage(s3, prefix, page) && CleanPrefix(prefix) && cp in page.prefixes
    ensures ShowsPrefix(PutRows(rows, bucket, PageEntries(Ingest, prefix, SeenPage(page, prefix))), bucket, prefix, cp)
  {
    hide CleanPrefix, Parent, Name, PutRows;
    var seen := SeenPage(page, prefix);
    var es := PageEntries(Ingest, prefix, seen);
    assert IsCommonPrefix(s3, prefix, cp);
    GroupForm(prefix, cp);
    if cp[|prefix|..|cp| - 1] != "" {
      RowFields(prefix, cp[|prefix|..|cp| - 1], Meta(0, "", 0), 0);
      DirEntryOf(seen.prefixes, DirEntry(cp, 0));
      PutRowsRow(rows, bucket, es, bucket, cp);
      forall e <- es | e.key == cp ensures e == DirEntry(cp, 0) {
        DirEntryOf(seen.prefixes, e);
        MadeOf(Ingest, prefix, seen.objects, e);
      }
    }
  }

  class DirNode {
    const cat: Catalog
    const s3: S3Bucket
    const bucket: string
    const prefix: string

    constructor (cat: Catalog, s3: S3Bucket, bucket: string, prefix: string)
      ensures this.cat == cat && this.s3 == s3 && this.bucket == bucket && this.prefix == prefix
    {
      this.cat, this.s3, this.bucket, this.prefix := cat, s3, bucket, prefix;
    }

    // What a lookup of the name meets that starts now and makes its second call later.
    ghost predicate Meets(items: seq<Item>, now: int, later: int, name: string, v: View)
      reads cat.store, cat.dirs
    {
      && v.rows == cat.store.rows && v.bucket == bucket && v.prefix == prefix && v.name == name
      && v.listing1 == Unexpired(At(cat.dirs.buckets, bucket, prefix), now)
      && v.listing2 == Unexpired(At(cat.dirs.buckets, bucket, prefix), later)
      && v.negative1 == Holds(Live(items, now), bucket, v.DirKey())
      && var after := LookedUp(items, now, v.DirAnswer(), bucket, v.DirKey(), cat.neg.ttl, cat.neg.maxSize);
         v.negative2 == Holds(Live(after, later), bucket, v.FileKey())
    }

    // The catalog stage of Lookup: what it answers, and exactly when that is the table's answer.
    method LookupCatalog(now: int, later: int, name: string, dirOk: bool, childrenOk: bool, fileOk: bool)
      returns (r: Result<Found>, ghost v: View)
      requires cat.Ready(now) && now <= later && CleanPrefix(prefix) && PlainName(name)
      modifies cat.neg, cat.neg.lru
      ensures cat.Ready(later) && forall n <- cat.neg.lru :: n in old(cat.neg.lru) || fresh(n)
      ensures r.Ok? ==> v.Sound() && Meets(old(cat.neg.items), now, later, name, v) && r.value == v.Stage()
      ensures r.Ok? ==> (r.value == v.Table() <==> v.Table() == Directory || (!v.Misled1() && !v.Misled2()))
      ensures r.Ok? && NamesSplit(cat.store.rows, bucket, prefix, name) ==> r.value == v.Table()
      ensures r.Err? ==> !(dirOk && childrenOk && fileOk)
    {
      hide CleanPrefix, PlainName, Answer, NamesSplit, Catalog.Valid;
      hide View.Sound, View.Table, View.Misled1, View.Misled2, DirNode.Meets;
      var childKey := prefix + name;
      var looked;
      looked, v := LookupDir(now, later, name, dirOk);
      if looked.Err? {
        return Err, v;
      }
      StageExactly(v);
      if NamesSplit(cat.store.rows, bucket, prefix, name) {
        StageIsTable(v);
      }
      var dirEntry := looked.value;
      if dirEntry.Some? && dirEntry.value.isDir {
        return Ok(Directory), v;
      }
      var has := cat.HasDir(bucket, childKey + "/", childrenOk);
      if has.Err? {
        return Err, v;
      }
      if has.value {
        return Ok(Directory), v;
      }
      assert forall i :: 0 <= i < |cat.neg.lru| ==> cat.neg.lru[i] in old(cat.neg.lru) || fresh(cat.neg.lru[i]);
      var entry := LookupFile(later, name, fileOk, v);
      if entry.Err? {
        return Err, v;
      }
      if entry.value.Some? && !entry.value.value.isDir {
        return Ok(AsFile(entry.value.value)), v;
      }
      r := Ok(Missing);
    }

    // The first call, and with it what the rest of the stage will meet.
    method LookupDir(now: int, later: int, name: string, ok: bool) returns (r: Result<Option<Entry>>, ghost v: View)
      requires cat.Ready(now) && now <= later && CleanPrefix(prefix) && PlainName(name)
      modifies cat.neg, cat.neg.lru
      ensures cat.Ready(later) && forall n <- cat.neg.lru :: n in old(cat.neg.lru) || fresh(n)
      ensures r.Err? ==> !ok
      ensures v.rows == cat.store.rows && v.bucket == bucket && v.prefix == prefix && v.name == name
      ensures v.negative2 == cat.Negative(bucket, prefix + name, later)
      ensures v.listing2 == Unexpired(At(cat.dirs.buckets, bucket, prefix), later)
      ensures r.Ok? ==> v.Sound() && Meets(old(cat.neg.items), now, later, name, v) && r.value == v.DirAnswer()
    {
      hide CleanPrefix, NoSlash, Parent, Name, Answer, IsListing, RowsWellFormed;
      hide Catalog.Valid, Unexpired, At, LookedUp, Holds, Live;
      var dirKey := prefix + name + "/";
      SplitChild(prefix, name);
      cat.CachesAgree(bucket, dirKey, now);
      ghost var listing := Unexpired(At(cat.dirs.buckets, bucket, prefix), now);
      ghost var negative := cat.Negative(bucket, dirKey, now);
      r := cat.Lookup(now, bucket, dirKey, ok);
      cat.CachesAgree(bucket, prefix + name, later);
      v := View(cat.store.rows, bucket, prefix, name, negative, listing,
                cat.Negative(bucket, prefix + name, later), Unexpired(At(cat.dirs.buckets, bucket, prefix), later));
    }

    // The second call of Catalog.Lookup.
    method LookupFile(later: int, name: string, ok: bool, ghost v: View) returns (r: Result<Option<Entry>>)
      requires cat.Ready(later) && CleanPrefix(prefix) && PlainName(name)
      requires v.rows == cat.store.rows && v.bucket == bucket && v.prefix == prefix && v.name == name
      requires v.negative2 == cat.Negative(bucket, prefix + name, later)
      requires v.listing2 == Unexpired(At(cat.dirs.buckets, bucket, prefix), later)
      modifies cat.neg, cat.neg.lru
      ensures cat.Ready(later) && forall n <- cat.neg.lru :: n in old(cat.neg.lru) || fresh(n)
      ensures if r.Ok? then r.value == v.FileAnswer() else !ok
    {
      hide CleanPrefix, NoSlash, Parent, Name, Answer, Catalog.Valid, Unexpired, At, LookedUp;
      SplitChild(prefix, name);
      r := cat.Lookup(later, bucket, prefix + name, ok);
    }

    // ListObjects for the child as a directory, then HeadObject for it as a file; what is found
    // goes into the catalog, if the catalog takes it.
    method LookupS3(name: string, list: ListAnswer, headOk: bool, stored: bool) returns (r: LookupResult)
      requires cat.Valid() && CleanPrefix(prefix) && PlainName(name)
      requires list.ListPage? ==> FirstPage(s3.objects, prefix + name + "/", list.page)
      modifies cat.store, cat.neg, cat.dirs
      ensures cat.Valid() && cat.neg.clock == old(cat.neg.clock) && forall n <- cat.neg.lru :: n in old(cat.neg.lru)
      ensures list.ListPage? && (headOk || Shows(list.page, prefix + name + "/")) ==>
        r == AsResult(InBucket(s3.objects, prefix + name))
      ensures list.ListFailed? ==> r == if list.notFound then NoEntry else LookupError
      ensures list.ListPage? && !headOk && !Shows(list.page, prefix + name + "/") ==> r == LookupError
      ensures r == Is(Directory) && stored ==>
        && list.ListPage?
        && cat.store.rows == PutRows(old(cat.store.rows), bucket,
                                     PageEntries(Ingest, prefix + name + "/", SeenPage(list.page, prefix + name + "/")))
      ensures r.Is? && r.found.File? && stored ==>
        && prefix + name in s3.objects
        && var meta := s3.objects[prefix + name];
        && cat.store.rows == old(cat.store.rows)[ObjKey(bucket, prefix + name) :=
             Entry(prefix + name, prefix, name, meta.size, meta.etag, meta.modified, false)]
      ensures r == Is(Directory) && stored ==>
        ShownRows(cat.store.rows, bucket, prefix + name + "/", list.page)
      ensures !r.Is? || !stored ==> cat.store.rows == old(cat.store.rows)
    {
      hide CleanPrefix, Parent, Name, IsListing, RowsWellFormed, Catalog.Valid, PutRows, PageEntries, FirstPage;
      hide ShownRows;
      var childKey := prefix + name;
      var dirPrefix := childKey + "/";
      if list.ListFailed? {
        return if list.notFound then NoEntry else LookupError;
      }
      ShowsMeans(s3.objects, dirPrefix, list.page);
      var page := SeenPage(list.page, dirPrefix);
      if page.objects != [] || page.prefixes != [] {
        ghost var rows := cat.store.rows;
        IngestPage(dirPrefix, list.page, stored);
        ChildPrefix(prefix, name);
        PageRows(rows, bucket, s3.objects, dirPrefix, list.page);
        return Is(Directory);
      }
      if !headOk {
        return LookupError;
      }
      if childKey !in s3.objects {
        return NoEntry;
      }
      var meta := s3.objects[childKey];
      SplitChild(prefix, name);
      RowFields(prefix, name, meta, 0);
      var _ := cat.Put(bucket, FileEntry(Object(childKey, meta)), stored);
      r := Is(File(meta.size, meta.etag, meta.modified));
    }

    // ingestListResult
    method IngestPage(dirPrefix: string, page: Page, stored: bool)
      requires cat.Valid() && PageFor(dirPrefix, page)
      modifies cat.store, cat.neg, cat.dirs
      ensures cat.Valid() && cat.neg.clock == old(cat.neg.clock) && forall n <- cat.neg.lru :: n in old(cat.neg.lru)
      ensures cat.store.rows ==
        if stored then PutRows(old(cat.store.rows), bucket, PageEntries(Ingest, dirPrefix, SeenPage(page, dirPrefix)))
        else old(cat.store.rows)
    {
      hide Parent, Name, IsListing, RowsWellFormed, Catalog.Valid, PageEntries, PageFor, WellFormed;
      var entries := RowsOf(Ingest, dirPrefix, SeenPage(page, dirPrefix));
      if entries == [] {
        return;
      }
      forall e <- entries ensures WellFormed(e) {
        EntriesWellFormed(Ingest, dirPrefix, page, e);
      }
      var _ := cat.PutBatch(bucket, entries, stored);
    }

    // All of Lookup: what the catalog stage finds, else what S3 has. So the table's answer if it has
    // one and the stage is not misled, which it never is by rows whose keys split.
    method Lookup(now: int, later: int, name: string, dirOk: bool, childrenOk: bool, fileOk: bool,
                  list: ListAnswer, headOk: bool, stored: bool)
      returns (r: LookupResult, ghost found: Result<Found>, ghost v: View)
      requires cat.Ready(now) && now <= later && CleanPrefix(prefix) && PlainName(name)
      requires list.ListPage? ==> FirstPage(s3.objects, prefix + name + "/", list.page)
      modifies cat.store, cat.neg, cat.neg.lru, cat.dirs
      ensures cat.Ready(later)
      ensures found.Err? ==> r == LookupError && !(dirOk && childrenOk && fileOk)
      ensures found.Ok? ==> v.Sound() && v.rows == old(cat.store.rows) && v.prefix == prefix && v.name == name
      ensures found.Ok? ==>
        && found.value == v.Stage()
        && (found.value == v.Table() <==> v.Table() == Directory || (!v.Misled1() && !v.Misled2()))
        && (NamesSplit(old(cat.store.rows), bucket, prefix, name) ==> found.value == v.Table())
      ensures found.Ok? && found.value != Missing ==> r == Is(found.value)
      ensures found.Ok? && found.value == Missing ==>
        if list.ListFailed? then r == if list.notFound then NoEntry else LookupError
        else if headOk || Shows(list.page, prefix + name + "/") then r == AsResult(InBucket(s3.objects, prefix + name))
        else r == LookupError
      ensures !(found == Ok(Missing) && r.Is? && stored) ==> cat.store.rows == old(cat.store.rows)
    {
      hide CleanPrefix, PlainName, NamesSplit, OnTable, FirstPage, Shows, InBucket;
      hide Catalog.Valid, View.Sound, View.Stage, View.Misled1, View.Misled2;
      var stage;
      stage, v := LookupCatalog(now, later, name, dirOk, childrenOk, fileOk);
      found := stage;
      if stage.Err? {
        r := LookupError;
      } else if stage.value != Missing {
        r := Is(stage.value);
      } else {
        r := LookupS3(name, list, headOk, stored);
      }
    }

    // The directory has rows, and the first listing reads them or has them cached.
    predicate ListsAtOnce(rows: Rows, buckets: Listings, now: int, listOk: bool) {
      HasChildren(rows, bucket, prefix) && (listOk || Unexpired(At(buckets, bucket, prefix), now).Some?)
    }

    // The catalog's listing; if it has none, that of a fresh sync; if that fails, S3's own stream.
    method Readdir(now: int, listOk: bool, registered: bool, replies: seq<Response>, againOk: bool) returns (r: Stream)
      requires cat.Ready(now) && CleanPrefix(prefix) && Replies(prefix, replies)
      modifies cat.store, cat.neg, cat.dirs
      ensures r.OfCatalog? ==> cat.Valid() && IsListing(cat.store.rows, bucket, prefix, r.entries)
      ensures var served := ListsAtOnce(old(cat.store.rows), old(cat.dirs.buckets), now, listOk);
        if served then r.OfCatalog? && cat.store.rows == old(cat.store.rows)
        else if !registered then (r.OfS3? ==> !againOk) && cat.store.rows == old(cat.store.rows)
        else if GoesThrough(SyncPrefix, prefix, replies, |replies|) then
          && (r.OfCatalog? <==> againOk)
          && Ingested(old(cat.store.rows), cat.store.rows, bucket, SyncPrefix, prefix, replies, |replies|)
        else
          && r.OfS3?
          && exists n :: StopsAt(SyncPrefix, prefix, replies, n) &&
                         Ingested(old(cat.store.rows), cat.store.rows, bucket, SyncPrefix, prefix, replies, n)
    {
      hide IsListing, Catalog.Valid, CleanPrefix, Replies, RowsWellFormed, Stops, FirstRows, PutRows;
      NoneIngested(cat.store.rows, bucket, prefix, replies);
      cat.CachesAgree(bucket, prefix, now);
      var first := cat.ListDir(now, bucket, prefix, listOk);
      if first.Ok? {
        NoneListed(cat.store.rows, bucket, prefix, first.value);
        if first.value != [] {
          return OfCatalog(first.value);
        }
      }
      var ok, n := cat.SyncPrefix(bucket, prefix, registered, replies);
      if !ok {
        return OfS3;
      }
      var again := cat.ListDir(now, bucket, prefix, againOk);
      if again.Err? {
        return OfS3;
      }
      r := OfCatalog(again.value);
    }

    // ---------------------------------------------------------------- operations that change things

    // A new file has a row at once; S3 hears of it when the handle is flushed.
    method Create(name: string, modified: int, tempOk: bool, stored: bool) returns (r: DirErrno)
      requires cat.Valid() && CleanPrefix(prefix) && PlainName(name)
      modifies cat.store, cat.neg, cat.dirs
      ensures cat.Valid() && (r == Done <==> tempOk)
      ensures tempOk && stored ==>
        OnTable(cat.store.rows, bucket, prefix, name) ==
        if OnTable(old(cat.store.rows), bucket, prefix, name) == Directory then Directory else File(0, "", modified)
      ensures cat.store.rows ==
        if tempOk && stored then
          old(cat.store.rows)[ObjKey(bucket, prefix + name) :=
            Entry(prefix + name, prefix, name, 0, "", modified, false)]
        else old(cat.store.rows)
    {
      hide CleanPrefix, Parent, Name, IsListing, Catalog.Valid;
      if !tempOk {
        return Refused;
      }
      var key := prefix + name;
      SplitChild(prefix, name);
      RowFields(prefix, name, Meta(0, "", modified), 0);
      ghost var rows := cat.store.rows;
      cat.CachesAgree(bucket, key, 0);
      var _ := cat.Put(bucket, FileEntry(Object(key, Meta(0, "", modified))), stored);
      PutRowTable(rows, bucket, prefix, name, FileEntry(Object(key, Meta(0, "", modified))));
      r := Done;
    }

    // A directory is an empty object under its key, and a row.
    method Mkdir(name: string, marker: Meta, putOk: bool, stored: bool) returns (r: DirErrno)
      requires cat.Valid() && CleanPrefix(prefix) && PlainName(name)
      modifies s3, cat.store, cat.neg, cat.dirs
      ensures cat.Valid() && (r == Done <==> putOk)
      ensures s3.objects == if putOk then old(s3.objects)[prefix + name + "/" := marker] else old(s3.objects)
      ensures putOk && stored ==> OnTable(cat.store.rows, bucket, prefix, name) == Directory
      ensures cat.store.rows ==
        if putOk && stored then
          old(cat.store.rows)[ObjKey(bucket, prefix + name + "/") :=
            Entry(prefix + name + "/", prefix, name, 0, "", 0, true)]
        else old(cat.store.rows)
    {
      hide CleanPrefix, Parent, Name, IsListing, Catalog.Valid;
      var markerKey := prefix + name + "/";
      s3.PutObject(markerKey, marker, putOk);
      if !putOk {
        return Refused;
      }
      SplitChild(prefix, name);
      RowFields(prefix, name, marker, 0);
      ghost var rows := cat.store.rows;
      cat.CachesAgree(bucket, markerKey, 0);
      var _ := cat.Put(bucket, DirEntry(markerKey, 0), stored);
      PutRowTable(rows, bucket, prefix, name, DirEntry(markerKey, 0));
      r := Done;
    }

    // S3 first, then the catalog. If the catalog cannot read the row first, the listing of this
    // directory may stay wrong.
    method Unlink(name: string, deleteOk: bool, readOk: bool, stored: bool) returns (r: DirErrno)
      requires cat.Valid() && CleanPrefix(prefix) && PlainName(name)
      modifies s3, cat.store, cat.neg, cat.dirs
      ensures (readOk ==> cat.Valid()) && (r == Done <==> deleteOk)
      ensures s3.objects == if deleteOk then old(s3.objects) - {prefix + name} else old(s3.objects)
      ensures cat.store.rows ==
        if deleteOk && stored then old(cat.store.rows) - {ObjKey(bucket, prefix + name)} else old(cat.store.rows)
    {
      hide Coherent, Parent, PlainName, CleanPrefix;
      var key := prefix + name;
      s3.DeleteObject(key, deleteOk);
      if !deleteOk {
        return Refused;
      }
      var _ := cat.Delete(bucket, key, readOk, stored);
      r := Done;
    }

    // Only a directory with nothing but its marker goes.
    method Rmdir(name: string, list: ListAnswer, deleteOk: bool, stored: bool) returns (r: DirErrno)
      requires cat.Valid() && CleanPrefix(prefix) && PlainName(name)
      requires list.ListPage? ==> FirstPage(s3.objects, prefix + name + "/", list.page)
      modifies s3, cat.store, cat.neg, cat.dirs
      ensures cat.Valid()
      ensures r == NotEmpty <==> list.ListPage? && exists k <- old(s3.objects) :: prefix + name + "/" < k
      ensures r == Done ==> forall k <- s3.objects :: !(prefix + name + "/" <= k)
      ensures r == Done && stored ==>
        forall id <- cat.store.rows :: id.bucket == bucket ==> !(prefix + name + "/" <= id.key)
      ensures cat.store.rows.Keys <= old(cat.store.rows).Keys
      ensures forall id <- cat.store.rows :: cat.store.rows[id] == old(cat.store.rows)[id]
      ensures forall id <- old(cat.store.rows) ::
        id in cat.store.rows <==>
          !(r == Done && stored && id.bucket == bucket && Like(prefix + name + "/" + "%", id.key))
      ensures '%' !in prefix + name ==> forall id <- old(cat.store.rows) ::
        id !in cat.store.rows ==> r == Done && stored && id.bucket == bucket && BeginsWith(prefix + name + "/", id.key)
      ensures r != Done ==> s3.objects == old(s3.objects) && cat.store.rows == old(cat.store.rows)
    {
      hide Catalog.Valid, Parent, PlainName, CleanPrefix, FirstPage, Like, BeginsWith;
      var dirPrefix := prefix + name + "/";
      if list.ListFailed? {
        return Refused;
      }
      ShowsMeans(s3.objects, dirPrefix, list.page);
      var page := SeenPage(list.page, dirPrefix);
      assert page.objects != [] ==> page.objects[0] in page.objects;
      var hasContents := AnyBut(page.objects, dirPrefix);
      if page.prefixes != [] {
        hasContents := true;
      }
      if hasContents {
        return NotEmpty;
      }
      s3.DeleteObject(dirPrefix, deleteOk);
      if !deleteOk {
        return Refused;
      }
      forall k <- s3.objects ensures !(dirPrefix <= k) {
        assert dirPrefix <= k ==> k == dirPrefix || dirPrefix < k;
      }
      var _ := cat.DeletePrefix(bucket, dirPrefix, stored);
      if '%' !in prefix + name {
        forall key: string ensures Like(dirPrefix + "%", key) <==> BeginsWith(dirPrefix, key) {
          LikeBegins(dirPrefix, key);
        }
      }
      r := Done;
    }

    // Copy, then delete the source, whose failure is only logged; then both rows, each if the
    // catalog takes it.
    method Rename(name: string, dst: DirNode, newName: string, etag: string, modified: int,
                  copyOk: bool, deleteOk: bool, readSrc: bool, dropSrc: bool, readDst: bool, dropDst: bool)
      returns (r: DirErrno)
      requires cat.Valid() && dst.cat == cat && dst.bucket == bucket
      modifies s3, cat.store, cat.neg, cat.dirs
      ensures readSrc && readDst ==> cat.Valid()
      ensures r == Done <==> copyOk && prefix + name in old(s3.objects) && prefix + name != dst.prefix + newName
      ensures r == Done ==>
        s3.objects == old(s3.objects)[dst.prefix + newName := Meta(old(s3.objects)[prefix + name].size, etag, modified)]
                      - (if deleteOk then {prefix + name} else {})
      ensures r == Done ==>
        cat.store.rows == old(cat.store.rows) - (if dropSrc then {ObjKey(bucket, prefix + name)} else {})
                          - (if dropDst then {ObjKey(bucket, dst.prefix + newName)} else {})
      ensures r != Done ==> s3.objects == old(s3.objects) && cat.store.rows == old(cat.store.rows)
    {
      hide Coherent, Parent, Filter, NegCache.Valid;
      var srcKey, dstKey := prefix + name, dst.prefix + newName;
      var copied := s3.CopyObject(srcKey, dstKey, etag, modified, copyOk);
      if !copied {
        return Refused;
      }
      s3.DeleteObject(srcKey, deleteOk);
      r := Done;
      var _ := cat.Delete(bucket, srcKey, readSrc, dropSrc);
      var _ := cat.Delete(bucket, dstKey, readDst, dropDst);
    }
  }

  datatype DirErrno = Done | NotEmpty | Refused

  datatype Stream = OfCatalog(entries: seq<Entry>) | OfS3

  lemma NoneIngested(rows: Rows, bucket: string, prefix: string, replies: seq<Response>)
    ensures PutRows(rows, bucket, FirstRows(SyncPrefix, prefix, replies, 0)) == rows
  {
    assert replies[..0] == [];
  }

  lemma NoneListed(rows: Rows, bucket: string, prefix: string, es: seq<Entry>)
    requires IsListing(rows, bucket, prefix, es) && RowsWellFormed(rows)
    ensures es != [] <==> HasChildren(rows, bucket, prefix)
  {
    if es != [] {
      assert InDir(rows, bucket, prefix, es[0]);
    }
    if id :| id in rows && id.bucket == bucket && rows[id].parent == prefix {
      assert InDir(rows, bucket, prefix, rows[id]);
    }
  }

  // A directory that was not listed before shows what S3 has in it: whatever the pages, an entry
  // for each child and nothing else.
  lemma FirstListing(rows: Rows, rows': Rows, bucket: string, prefix: string, replies: seq<Response>,
                     s3: Bucket, es: seq<Entry>, e: Entry)
    requires CleanPrefix(prefix) && !HasChildren(rows, bucket, prefix)
    requires Ingested(rows, rows', bucket, SyncPrefix, prefix, replies, |replies|)
    requires IsListing(rows', bucket, prefix, es)
    requires (forall r <- replies :: r.Served?) && IsPagination(s3, prefix, Pages(replies))
    ensures e in es <==> Listed(s3, prefix, e.key) == Some(e)
  {
    hide CleanPrefix, IsPagination, Listed, PutRows, Entries;
    assert replies[..|replies|] == replies;
    SyncedDirectory(rows, bucket, s3, prefix, Pages(replies), SyncPrefix, e);
  }

  method AnyBut(objects: seq<Object>, key: string) returns (r: bool)
    ensures r <==> exists o <- objects :: o.key != key
  {
    for i := 0 to |objects|
      invariant forall j :: 0 <= j < i ==> objects[j].key == key
    {
      if objects[i].key != key {
        return true;
      }
    }
    r := false;
  }

  lemma PutElsewhere(rows: Rows, bucket: string, e: Entry, parent: string)
    requires RowsWellFormed(rows) && WellFormed(e) && e.parent != parent
    ensures HasChildren(PutRow(rows, bucket, e), bucket, parent) <==> HasChildren(rows, bucket, parent)
  {
    hide Parent, Name;
    var rows', k := PutRow(rows, bucket, e), ObjKey(bucket, e.key);
    forall id <- rows | rows[id].parent == parent && id.bucket == bucket
      ensures id in rows' && rows'[id].parent == parent
    {
      assert WellFormed(rows[id]);
    }
  }

  // What a new row makes of its name.
  lemma PutRowTable(rows: Rows, bucket: string, prefix: string, name: string, e: Entry)
    requires RowsWellFormed(rows) && WellFormed(e) && CleanPrefix(prefix) && PlainName(name)
    requires e.key == prefix + name + (if e.isDir then "/" else "")
    ensures OnTable(PutRow(rows, bucket, e), bucket, prefix, name) ==
      if e.isDir || OnTable(rows, bucket, prefix, name) == Directory then Directory
      else File(e.size, e.etag, e.modified)
  {
    hide CleanPrefix, Parent, Name;
    var rows', dirKey := PutRow(rows, bucket, e), prefix + name + "/";
    SplitChild(prefix, name);
    assert prefix + name + "" == prefix + name;
    assert |dirKey| > |prefix| && e.parent == prefix;
    PutElsewhere(rows, bucket, e, dirKey);
  }
}
