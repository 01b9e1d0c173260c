/**
 Listing a directory of a bucket: what ListObjectsV2 answers for a prefix and the delimiter "/"
 (Amazon S3 API Reference, ListObjectsV2), page by page, and the catalog rows that
 syncOnePrefix, SyncPrefix (internal/catalog/sync.go) and ingestListResult (internal/fuse/dir.go)
 make of a page.
 */
module Listing {
  import opened Ids
  import opened Keys
  import opened Table

  datatype Meta = Meta(size: int, etag: string, modified: int)
  type Bucket = map<string, Meta>

  datatype Object = Object(key: string, meta: Meta)
  datatype Page = Page(objects: seq<Object>, prefixes: seq<string>)

  // ---------------------------------------------------------------- the listing, unpaged

  // Listed itself: nothing but a name after the prefix.
  predicate Direct(prefix: string, key: string) {
    prefix <= key && NoSlash(key[|prefix|..])
  }

  // A common prefix stands for the keys that go on after the first slash past the prefix.
  predicate Groups(prefix: string, cp: string) {
    prefix < cp && IsDirKey(cp) && NoSlash(cp[|prefix|..|cp| - 1])
  }

  predicate IsObject(s3: Bucket, prefix: string, o: Object) {
    o.key in s3 && s3[o.key] == o.meta && Direct(prefix, o.key)
  }

  predicate IsCommonPrefix(s3: Bucket, prefix: string, cp: string) {
    Groups(prefix, cp) && exists k <- s3 :: cp <= k
  }

  function Objects(pages: seq<Page>): seq<Object> {
    if pages == [] then [] else Objects(pages[..|pages| - 1]) + pages[|pages| - 1].objects
  }

  function Prefixes(pages: seq<Page>): seq<string> {
    if pages == [] then [] else Prefixes(pages[..|pages| - 1]) + pages[|pages| - 1].prefixes
  }

  predicate NoRepeats<T(==)>(s: seq<T>) {
    forall i, j :: 0 <= i < j < |s| ==> s[i] != s[j]
  }

  // However the service cuts it: over all pages, every object and common prefix exactly once.
  ghost predicate IsPagination(s3: Bucket, prefix: string, pages: seq<Page>) {
    && pages != []
    && NoRepeats(Objects(pages)) && NoRepeats(Prefixes(pages))
    && (forall o :: o in Objects(pages) <==> IsObject(s3, prefix, o))
    && (forall cp :: cp in Prefixes(pages) <==> IsCommonPrefix(s3, prefix, cp))
  }

  // ---------------------------------------------------------------- how many pages there can be

  // No key goes on under two common prefixes.
  lemma GroupUnique(prefix: string, one: string, two: string, key: string)
    requires Groups(prefix, one) && Groups(prefix, two) && one <= key && two <= key
    ensures one == two
  {
    assert one == key[..|one|] && two == key[..|two|];
  }

  lemma GroupNotDirect(prefix: string, cp: string, key: string)
    requires Groups(prefix, cp) && cp <= key
    ensures !Direct(prefix, key)
  {
    assert key[|prefix|..][|cp| - 1 - |prefix|] == key[|cp| - 1] == cp[|cp| - 1] == '/';
  }

  // Each common prefix stands for a key of its own that is not listed itself.
  lemma {:induction false} CountPrefixes(prefix: string, cps: seq<string>, keys: set<string>)
    requires NoRepeats(cps) && forall cp <- cps :: Groups(prefix, cp) && exists k <- keys :: cp <= k
    ensures |cps| <= |keys|
  {
    if cps == [] {
    } else {
      var init, last := cps[..|cps| - 1], cps[|cps| - 1];
      assert last in cps;
      var k :| k in keys && last <= k;
      forall cp <- init ensures Groups(prefix, cp) && exists j <- keys - {k} :: cp <= j {
        var i :| 0 <= i < |init| && cps[i] == cp;
        assert cp in cps && cp != last;
        var j :| j in keys && cp <= j;
        if last <= j { GroupUnique(prefix, cp, last, j); }
        assert j in keys - {k} && cp <= j;
      }
      CountPrefixes(prefix, init, keys - {k});
    }
  }

  lemma {:induction false} CountObjects(s3: Bucket, prefix: string, objects: seq<Object>, keys: set<string>)
    requires NoRepeats(objects) && forall o <- objects :: IsObject(s3, prefix, o) && o.key in keys
    ensures |objects| <= |keys|
  {
    if objects == [] {
    } else {
      var init, last := objects[..|objects| - 1], objects[|objects| - 1];
      assert last in objects;
      forall o <- init ensures IsObject(s3, prefix, o) && o.key in keys - {last.key} {
        assert o in objects;
      }
      CountObjects(s3, prefix, init, keys - {last.key});
    }
  }

  // No more entries than keys.
  lemma EntriesBound(s3: Bucket, prefix: string, pages: seq<Page>)
    requires IsPagination(s3, prefix, pages)
    ensures |Objects(pages)| + |Prefixes(pages)| <= |s3|
  {
    hide Groups;
    var direct := set k <- s3 | Direct(prefix, k);
    var others := s3.Keys - direct;
    CountObjects(s3, prefix, Objects(pages), direct);
    forall cp <- Prefixes(pages) ensures Groups(prefix, cp) && exists k <- others :: cp <= k {
      var k :| k in s3 && cp <= k;
      GroupNotDirect(prefix, cp, k);
      assert k in others;
    }
    CountPrefixes(prefix, Prefixes(pages), others);
    assert s3.Keys == direct + others && |s3.Keys| == |s3|;
  }

  lemma {:induction false} PageCount(pages: seq<Page>)
    requires forall i :: 0 <= i < |pages| ==> pages[i].objects != [] || pages[i].prefixes != []
    ensures |pages| <= |Objects(pages)| + |Prefixes(pages)|
  {
    if pages == [] {
    } else {
      PageCount(pages[..|pages| - 1]);
    }
  }

  // A pass over a frozen bucket ends: each page but the last uses up something, so there are at
  // most as many pages as keys, and one more.
  lemma PagesBound(s3: Bucket, prefix: string, pages: seq<Page>)
    requires IsPagination(s3, prefix, pages)
    requires forall i :: 0 <= i < |pages| - 1 ==> pages[i].objects != [] || pages[i].prefixes != []
    ensures |pages| <= |s3| + 1
  {
    EntriesBound(s3, prefix, pages);
    PageCount(pages[..|pages| - 1]);
  }

  // ---------------------------------------------------------------- rows made of a page

  function DirEntry(cp: string, modified: int): Entry {
    Entry(cp, Parent(cp), Name(cp), 0, "", modified, true)
  }

  function FileEntry(o: Object): Entry {
    Entry(o.key, Parent(o.key), Name(o.key), o.meta.size, o.meta.etag, o.meta.modified, false)
  }

  function DirEntries(cps: seq<string>): seq<Entry> {
    if cps == [] then [] else DirEntries(cps[..|cps| - 1]) + [DirEntry(cps[|cps| - 1], 0)]
  }

  // The three places that make rows of a page, and what each makes of an object.
  datatype Maker = OnePrefix | SyncPrefix | Ingest

  function Make(m: Maker, prefix: string, o: Object): Option<Entry> {
    match m
    case OnePrefix =>
      if o.key == prefix then None
      else if IsDirKey(o.key) then Some(DirEntry(o.key, o.meta.modified))
      else Some(FileEntry(o))
    case SyncPrefix => if IsDirKey(o.key) then None else Some(FileEntry(o))
    case Ingest => if o.key == prefix || IsDirKey(o.key) then None else Some(FileEntry(o))
  }

  function Made(m: Maker, prefix: string, objects: seq<Object>): seq<Entry> {
    if objects == [] then []
    else
      var made := Make(m, prefix, objects[|objects| - 1]);
      Made(m, prefix, objects[..|objects| - 1]) + (if made.Some? then [made.value] else [])
  }

  function PageEntries(m: Maker, prefix: string, page: Page): seq<Entry> {
    DirEntries(page.prefixes) + Made(m, prefix, page.objects)
  }

  // The client leaves the directory's own marker out.
  function Seen(objects: seq<Object>, prefix: string): (r: seq<Object>)
    ensures forall o :: o in r <==> o in objects && o.key != prefix
  {
    if objects == [] then []
    else
      var rest := Seen(objects[..|objects| - 1], prefix);
      if objects[|objects| - 1].key == prefix then rest else rest + [objects[|objects| - 1]]
  }

  function SeenPage(page: Page, prefix: string): Page {
    Page(Seen(page.objects, prefix), page.prefixes)
  }

  lemma {:induction false} MadeAlike(one: Maker, two: Maker, prefix: string, objects: seq<Object>)
    requires forall o <- objects :: Make(one, prefix, o) == Make(two, prefix, o)
    ensures Made(one, prefix, objects) == Made(two, prefix, objects)
  {
    if objects == [] {
    } else {
      MadeAlike(one, two, prefix, objects[..|objects| - 1]);
    }
  }

  // Under the delimiter's semantics the three make the same rows of the same page.
  lemma IngestsAgree(prefix: string, page: Page, one: Maker, two: Maker)
    requires PageFor(prefix, page)
    ensures PageEntries(one, prefix, SeenPage(page, prefix)) == PageEntries(two, prefix, SeenPage(page, prefix))
  {
    forall o <- Seen(page.objects, prefix) ensures !IsDirKey(o.key) {
      NoDirectDir(prefix, o.key);
    }
    MadeAlike(one, two, prefix, Seen(page.objects, prefix));
  }

  // What S3 puts on a page for this prefix.
  predicate PageFor(prefix: string, page: Page) {
    && (forall o <- page.objects :: Direct(prefix, o.key))
    && (forall cp <- page.prefixes :: Groups(prefix, cp))
  }

  // ---------------------------------------------------------------- all pages

  // The rows of the directory's children in the bucket, without regard to pages.
  function Listed(s3: Bucket, prefix: string, key: string): Option<Entry> {
    if IsCommonPrefix(s3, prefix, key) then Some(DirEntry(key, 0))
    else if key in s3 && Direct(prefix, key) && key != prefix then Some(FileEntry(Object(key, s3[key])))
    else None
  }

  function Entries(pages: seq<Page>, prefix: string, m: Maker): seq<Entry> {
    if pages == [] then []
    else Entries(pages[..|pages| - 1], prefix, m) + PageEntries(m, prefix, SeenPage(pages[|pages| - 1], prefix))
  }

  lemma {:induction false} MadeOf(m: Maker, prefix: string, objects: seq<Object>, e: Entry)
    ensures e in Made(m, prefix, objects) <==> exists o <- objects :: Make(m, prefix, o) == Some(e)
  {
    if objects == [] {
    } else {
      MadeOf(m, prefix, objects[..|objects| - 1], e);
      assert objects == objects[..|objects| - 1] + [objects[|objects| - 1]];
    }
  }

  lemma {:induction false} EntryOf(pages: seq<Page>, prefix: string, m: Maker, e: Entry)
    ensures e in Entries(pages, prefix, m) <==>
      || (exists cp <- Prefixes(pages) :: e == DirEntry(cp, 0))
      || (exists o <- Objects(pages) :: o.key != prefix && Make(m, prefix, o) == Some(e))
  {
    if pages == [] {
    } else {
      var page := pages[|pages| - 1];
      EntryOf(pages[..|pages| - 1], prefix, m, e);
      MadeOf(m, prefix, Seen(page.objects, prefix), e);
      DirEntryOf(page.prefixes, e);
    }
  }

  lemma {:induction false} DirEntryOf(cps: seq<string>, e: Entry)
    ensures e in DirEntries(cps) <==> exists cp <- cps :: e == DirEntry(cp, 0)
  {
    hide DirEntry;
    if cps == [] {
    } else {
      DirEntryOf(cps[..|cps| - 1], e);
      assert cps == cps[..|cps| - 1] + [cps[|cps| - 1]];
    }
  }

  // Whatever the pages, together they give each child its row and nothing else.
  lemma EntriesAreListed(s3: Bucket, prefix: string, pages: seq<Page>, e: Entry)
    requires IsPagination(s3, prefix, pages)
    ensures e in Entries(pages, prefix, SyncPrefix) <==> Listed(s3, prefix, e.key) == Some(e)
  {
    hide Parent, Name, Entries, NoRepeats, IsDirKey;
    EntryOf(pages, prefix, SyncPrefix, e);
    NoDirectDir(prefix, e.key);
    if Listed(s3, prefix, e.key) == Some(e) && !e.isDir {
      assert IsObject(s3, prefix, Object(e.key, s3[e.key]));
    }
  }

  lemma NoDirectDir(prefix: string, key: string)
    ensures Direct(prefix, key) && IsDirKey(key) ==> key == prefix
  {
    if prefix < key && IsDirKey(key) {
      assert key[|prefix|..][|key| - |prefix| - 1] == '/';
    }
  }

  lemma {:induction false} PagesAnswer(s3: Bucket, prefix: string, pages: seq<Page>)
    requires forall o <- Objects(pages) :: IsObject(s3, prefix, o)
    requires forall cp <- Prefixes(pages) :: IsCommonPrefix(s3, prefix, cp)
    ensures forall p <- pages :: PageFor(prefix, p)
  {
    if pages == [] {
    } else {
      PagesAnswer(s3, prefix, pages[..|pages| - 1]);
      var page := pages[|pages| - 1];
      assert forall o <- page.objects :: o in Objects(pages);
      assert forall cp <- page.prefixes :: cp in Prefixes(pages);
      assert pages == pages[..|pages| - 1] + [page];
    }
  }

  lemma {:induction false} EntriesAgree(prefix: string, pages: seq<Page>, one: Maker, two: Maker)
    requires forall p <- pages :: PageFor(prefix, p)
    ensures Entries(pages, prefix, one) == Entries(pages, prefix, two)
  {
    if pages == [] {
    } else {
      EntriesAgree(prefix, pages[..|pages| - 1], one, two);
      IngestsAgree(prefix, pages[|pages| - 1], one, two);
    }
  }

  // Ingesting all pages, whoever does it: the old rows overridden by the one unpaged listing, and
  // no row removed.
  lemma PagedIngest(m: Maker, rows: Rows, bucket: string, s3: Bucket, prefix: string, pages: seq<Page>, b: string,
                    key: string)
    requires IsPagination(s3, prefix, pages)
    ensures Row(PutRows(rows, bucket, Entries(pages, prefix, m)), b, key) ==
      if b == bucket && Listed(s3, prefix, key).Some? then Listed(s3, prefix, key) else Row(rows, b, key)
  {
    PagesAnswer(s3, prefix, pages);
    EntriesAgree(prefix, pages, m, SyncPrefix);
    var es := Entries(pages, prefix, SyncPrefix);
    PutRowsRow(rows, bucket, es, b, key);
    if LastWith(es, key).Some? {
      EntriesAreListed(s3, prefix, pages, LastWith(es, key).value);
    } else if Listed(s3, prefix, key).Some? {
      EntriesAreListed(s3, prefix, pages, Listed(s3, prefix, key).value);
    }
  }

  // So two paginations of one bucket leave the same table behind.
  lemma PagesDoNotMatter(m: Maker, rows: Rows, bucket: string, s3: Bucket, prefix: string, one: seq<Page>,
                         two: seq<Page>)
    requires IsPagination(s3, prefix, one) && IsPagination(s3, prefix, two)
    ensures PutRows(rows, bucket, Entries(one, prefix, m)) == PutRows(rows, bucket, Entries(two, prefix, m))
  {
    hide PutRows, Entries, IsPagination, Listed, Row;
    var r, q := PutRows(rows, bucket, Entries(one, prefix, m)), PutRows(rows, bucket, Entries(two, prefix, m));
    forall id: ObjKey ensures Row(r, id.bucket, id.key) == Row(q, id.bucket, id.key) {
      PagedIngest(m, rows, bucket, s3, prefix, one, id.bucket, id.key);
      PagedIngest(m, rows, bucket, s3, prefix, two, id.bucket, id.key);
    }
    SameRows(r, q);
  }

  lemma SameRows(r: Rows, q: Rows)
    requires forall id: ObjKey :: Row(r, id.bucket, id.key) == Row(q, id.bucket, id.key)
    ensures r == q
  {
    assert forall id: ObjKey :: id in r <==> Row(r, id.bucket, id.key).Some?;
  }

  lemma {:induction false} PutRowsConcat(rows: Rows, bucket: string, es: seq<Entry>, fs: seq<Entry>)
    ensures PutRows(rows, bucket, es + fs) == PutRows(PutRows(rows, bucket, es), bucket, fs)
  {
    if fs == [] {
      assert es + fs == es;
    } else {
      PutRowsConcat(rows, bucket, es, fs[..|fs| - 1]);
      assert (es + fs)[..|es + fs| - 1] == es + fs[..|fs| - 1];
    }
  }

  // Rows made of it are well formed, and in the directory that was listed.
  lemma EntriesWellFormed(m: Maker, prefix: string, page: Page, e: Entry)
    requires PageFor(prefix, page) && e in PageEntries(m, prefix, SeenPage(page, prefix))
    ensures WellFormed(e) && prefix <= e.key && (CleanPrefix(prefix) ==> e.parent == prefix)
  {
    DirEntryOf(page.prefixes, e);
    if e in DirEntries(page.prefixes) {
      if CleanPrefix(prefix) { GroupParent(prefix, e.key); }
    } else {
      MadeOf(m, prefix, Seen(page.objects, prefix), e);
      var o :| o in Seen(page.objects, prefix) && Make(m, prefix, o) == Some(e);
      NoDirectDir(prefix, o.key);
      if CleanPrefix(prefix) { DirectParent(prefix, o.key); }
    }
  }

  lemma GroupForm(prefix: string, cp: string)
    requires Groups(prefix, cp)
    ensures var name := cp[|prefix|..|cp| - 1];
      cp == prefix + name + "/" && cp[|prefix|..] == name + "/"
  {
    var name := cp[|prefix|..|cp| - 1];
    assert cp[..|prefix|] == prefix;
    assert cp[|prefix|..] == name + "/";
    assert cp == cp[..|prefix|] + cp[|prefix|..];
  }

  lemma GroupParent(prefix: string, cp: string)
    requires Groups(prefix, cp) && CleanPrefix(prefix)
    ensures Parent(cp) == prefix
  {
    hide CleanPrefix, Parent;
    GroupForm(prefix, cp);
    ParentOfGroup(prefix, cp[|prefix|..|cp| - 1]);
  }

  lemma DirectParent(prefix: string, key: string)
    requires Direct(prefix, key) && key != prefix && CleanPrefix(prefix)
    ensures Parent(key) == prefix
  {
    assert key == prefix + key[|prefix|..];
    SplitChild(prefix, key[|prefix|..]);
  }

  // The rows of a directory that was unlisted before: what S3 lists, and nothing else.
  lemma SyncedDirectory(rows: Rows, bucket: string, s3: Bucket, prefix: string, pages: seq<Page>, m: Maker, e: Entry)
    requires IsPagination(s3, prefix, pages) && CleanPrefix(prefix)
    requires forall id <- rows :: id.bucket == bucket ==> rows[id].parent != prefix
    ensures InDir(PutRows(rows, bucket, Entries(pages, prefix, m)), bucket, prefix, e) <==>
      Listed(s3, prefix, e.key) == Some(e)
  {
    hide CleanPrefix, Parent, Name, IsPagination;
    PagedIngest(m, rows, bucket, s3, prefix, pages, bucket, e.key);
    if Listed(s3, prefix, e.key).Some? {
      if IsCommonPrefix(s3, prefix, e.key) {
        GroupParent(prefix, e.key);
      } else {
        DirectParent(prefix, e.key);
      }
    }
  }

  // All pages' rows are well formed and belong to the directory.
  lemma PagesMakeRows(m: Maker, s3: Bucket, prefix: string, pages: seq<Page>)
    requires IsPagination(s3, prefix, pages) && CleanPrefix(prefix)
    ensures forall e <- Entries(pages, prefix, m) :: WellFormed(e) && e.parent == prefix
  {
    hide CleanPrefix, Parent, Name;
    PagesAnswer(s3, prefix, pages);
    EntriesAgree(prefix, pages, m, SyncPrefix);
    forall e <- Entries(pages, prefix, SyncPrefix) ensures WellFormed(e) && e.parent == prefix {
      EntriesAreListed(s3, prefix, pages, e);
      if IsCommonPrefix(s3, prefix, e.key) { GroupParent(prefix, e.key); } else {
        DirectParent(prefix, e.key);
        NoDirectDir(prefix, e.key);
      }
    }
  }

  // Field by field: a file's row is made of its object, a directory's of its name alone.
  lemma RowFields(prefix: string, name: string, meta: Meta, modified: int)
    requires CleanPrefix(prefix) && NoSlash(name) && name != ""
    ensures FileEntry(Object(prefix + name, meta)) ==
      Entry(prefix + name, prefix, name, meta.size, meta.etag, meta.modified, false)
    ensures DirEntry(prefix + name + "/", modified) == Entry(prefix + name + "/", prefix, name, 0, "", modified, true)
  {
    hide CleanPrefix, Parent, Name;
    SplitChild(prefix, name);
  }

  // After ingesting any pagination of the directory: the row of each of its files says what the bucket
  // says of the object, a name under which there are keys has a directory row, and other rows of the
  // name are as before.
  lemma IngestedRow(m: Maker, rows: Rows, bucket: string, s3: Bucket, prefix: string, pages: seq<Page>, name: string)
    requires IsPagination(s3, prefix, pages) && CleanPrefix(prefix) && NoSlash(name) && name != ""
    ensures var rows', file, dir := PutRows(rows, bucket,
                                            Entries(pages, prefix, m)), prefix + name, prefix + name + "/";
      && Row(rows', bucket, file) ==
           (if file in s3 then
              Some(Entry(file, prefix, name, s3[file].size, s3[file].etag, s3[file].modified, false))
            else Row(rows, bucket, file))
      && Row(rows', bucket, dir) ==
           if exists k <- s3 :: dir <= k then Some(Entry(dir, prefix, name, 0, "", 0, true)) else Row(rows, bucket, dir)
  {
    hide CleanPrefix, IsPagination, PutRows, Entries, Row, Parent, Name;
    var file, dir := prefix + name, prefix + name + "/";
    PagedIngest(m, rows, bucket, s3, prefix, pages, bucket, file);
    PagedIngest(m, rows, bucket, s3, prefix, pages, bucket, dir);
    ChildListed(s3, prefix, name);
    RowFields(prefix, name, if file in s3 then s3[file] else Meta(0, "", 0), 0);
  }

  lemma ChildListed(s3: Bucket, prefix: string, name: string)
    requires NoSlash(name) && name != ""
    ensures var file, dir := prefix + name, prefix + name + "/";
      && Listed(s3, prefix, file) == (if file in s3 then Some(FileEntry(Object(file, s3[file]))) else None)
      && Listed(s3, prefix, dir) == if exists k <- s3 :: dir <= k then Some(DirEntry(dir, 0)) else None
  {
    hide FileEntry, DirEntry;
    var file, dir := prefix + name, prefix + name + "/";
    assert file[|prefix|..] == name && dir[|prefix|..] == name + "/" && dir[|prefix|..|dir| - 1] == name;
    assert file[|file| - 1] == name[|name| - 1];
    NoDirectDir(prefix, dir);
  }
}
