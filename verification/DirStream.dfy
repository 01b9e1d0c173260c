/**
 The two ways a directory is read out (internal/fuse/dirstream.go): from the catalog's listing, and
 straight from S3, page by page. For the same bucket they should show the same directory.
 */
module DirStream {
  import opened Ids
  import opened Keys
  import opened Table
  import opened Listing

  // An entry as the kernel gets it. The inode number is a hash (stableIno) of this key.
  datatype Dirent = Dirent(name: string, inoOf: string, isDir: bool)

  // ---------------------------------------------------------------- from the catalog

  function FromRows(es: seq<Entry>): (r: seq<Dirent>)
    ensures |r| == |es| && forall i :: 0 <= i < |r| ==> r[i] == FromRow(es[i])
  {
    if es == [] then [] else FromRows(es[..|es| - 1]) + [FromRow(es[|es| - 1])]
  }

  function FromRow(e: Entry): Dirent {
    Dirent(e.name, e.key, e.isDir)
  }

  class CatalogDirStream {
    const entries: seq<Dirent>
    var pos: nat

    ghost predicate Valid()
      reads this
    {
      pos <= |entries|
    }

    // newCatalogDirStream
    constructor (catEntries: seq<Entry>)
      ensures Valid() && entries == FromRows(catEntries) && pos == 0
    {
      entries, pos := FromRows(catEntries), 0;
    }

    method HasNext() returns (r: bool)
      requires Valid()
      ensures r <==> pos < |entries|
    {
      r := pos < |entries|;
    }

    // Past the end it answers EIO.
    method Next() returns (r: Option<Dirent>)
      requires Valid()
      modifies this
      ensures Valid()
      ensures r == if old(pos) < |entries| then Some(entries[old(pos)]) else None
      ensures pos == if old(pos) < |entries| then old(pos) + 1 else old(pos)
    {
      if pos >= |entries| {
        return None;
      }
      r := Some(entries[pos]);
      pos := pos + 1;
    }
  }

  // Reading the stream out, as the kernel does.
  method ReadCatalog(s: CatalogDirStream) returns (all: seq<Dirent>)
    requires s.Valid() && s.pos == 0
    modifies s
    ensures all == s.entries
  {
    all := [];
    var more := s.HasNext();
    while more
      invariant s.Valid() && all == s.entries[..s.pos] && (more <==> s.pos < |s.entries|)
      decreases |s.entries| - s.pos
    {
      var e := s.Next();
      all := all + [e.value];
      more := s.HasNext();
    }
  }

  // ---------------------------------------------------------------- from S3

  // strings.TrimPrefix and strings.TrimSuffix
  function GroupName(prefix: string, cp: string): string {
    Trim(if prefix <= cp then cp[|prefix|..] else cp)
  }

  function FromPrefixes(prefix: string, cps: seq<string>): seq<Dirent> {
    if cps == [] then []
    else
      var cp := cps[|cps| - 1];
      var name := GroupName(prefix, cp);
      FromPrefixes(prefix, cps[..|cps| - 1]) + (if name == "" then [] else [Dirent(name, cp, true)])
  }

  function FromObjects(prefix: string, objects: seq<Object>): seq<Dirent> {
    if objects == [] then []
    else
      var key := objects[|objects| - 1].key;
      FromObjects(prefix, objects[..|objects| - 1]) +
      (if key == prefix || IsDirKey(key) then [] else [Dirent(Base(key), key, false)])
  }

  function FromPage(prefix: string, page: Page): seq<Dirent> {
    FromPrefixes(prefix, page.prefixes) + FromObjects(prefix, Seen(page.objects, prefix))
  }

  // What the answers to its calls are: pages, the last one not truncated, or an error at the end.
  datatype Fetch = Failed | Served(page: Page)

  // All the entries there are on the pages served.
  function FromReplies(prefix: string, replies: seq<Fetch>): seq<Dirent> {
    if replies == [] || replies[0].Failed? then []
    else FromPage(prefix, replies[0].page) + FromReplies(prefix, replies[1..])
  }

  // What comes out: a page with nothing to show looks like the end.
  function Emitted(prefix: string, replies: seq<Fetch>): seq<Dirent> {
    if replies == [] || replies[0].Failed? || FromPage(prefix, replies[0].page) == [] then []
    else FromPage(prefix, replies[0].page) + Emitted(prefix, replies[1..])
  }

  class S3DirStream {
    const prefix: string
    const replies: seq<Fetch>
    var entries: seq<Dirent>
    var pos: nat
    var token: nat        // how many pages have been fetched
    var done: bool

    ghost predicate Valid()
      reads this
    {
      && pos <= |entries| && token <= |replies|
      && (!done ==> token < |replies|)
      && forall i :: 0 <= i < |replies| - 1 ==> replies[i].Served?
    }

    // What is still to come out.
    ghost function Left(): seq<Dirent>
      reads this
      requires Valid()
    {
      entries[pos..] + if done then [] else Emitted(prefix, replies[token..])
    }

    constructor (prefix: string, replies: seq<Fetch>)
      requires replies != [] && forall i :: 0 <= i < |replies| - 1 ==> replies[i].Served?
      ensures Valid() && Left() == Emitted(prefix, replies) && this.prefix == prefix && this.replies == replies
    {
      this.prefix, this.replies := prefix, replies;
      entries, pos, token, done := [], 0, 0, false;
    }

    // After a false answer the reader stops, although after an empty page a further call would go on.
    method HasNext() returns (r: bool)
      requires Valid()
      modifies this
      ensures Valid() && (r <==> old(Left()) != []) && (r ==> Left() == old(Left()) && pos < |entries|)
      ensures token >= old(token) && (token == old(token) ==> pos == old(pos) && entries == old(entries))
    {
      hide Emitted, FromPage;
      if pos < |entries| {
        return true;
      }
      if done {
        return false;
      }
      EmittedAt(prefix, replies, token);
      var ok := FetchPage();
      r := ok && pos < |entries|;
    }

    method Next() returns (r: Option<Dirent>)
      requires Valid()
      modifies this`pos
      ensures Valid() && pos == (if old(pos) < |entries| then old(pos) + 1 else old(pos))
      ensures r == if old(pos) < |entries| then Some(entries[old(pos)]) else None
      ensures r.Some? ==> old(Left()) == [r.value] + Left()
    {
      if pos >= |entries| {
        return None;
      }
      r := Some(entries[pos]);
      pos := pos + 1;
    }

    method FetchPage() returns (ok: bool)
      requires Valid() && !done && pos == |entries|
      modifies this
      ensures Valid() && token == old(token) + 1
      ensures ok <==> replies[old(token)].Served?
      ensures !ok ==> done
      ensures ok ==> pos == 0 && entries == FromPage(prefix, replies[old(token)].page) && (done <==> token == |replies|)
    {
      hide FromPrefixes, FromObjects, Seen;
      var reply := replies[token];
      token := token + 1;
      if reply.Failed? {
        done := true;
        return false;
      }
      var page := Page(Seen(reply.page.objects, prefix), reply.page.prefixes);
      entries, pos := [], 0;
      AddPrefixes(page.prefixes);
      assert entries == FromPrefixes(prefix, page.prefixes);
      AddObjects(page.objects);
      if token == |replies| {
        done := true;
      }
      ok := true;
    }

    method AddPrefixes(cps: seq<string>)
      modifies this`entries
      ensures entries == old(entries) + FromPrefixes(prefix, cps)
    {
      hide GroupName;
      for i := 0 to |cps|
        invariant entries == old(entries) + FromPrefixes(prefix, cps[..i])
      {
        assert cps[..i + 1][..i] == cps[..i];
        var name := GroupName(prefix, cps[i]);
        if name != "" {
          entries := entries + [Dirent(name, cps[i], true)];
        }
      }
      assert cps[..|cps|] == cps;
    }

    method AddObjects(objects: seq<Object>)
      modifies this`entries
      ensures entries == old(entries) + FromObjects(prefix, objects)
    {
      hide Base;
      for i := 0 to |objects|
        invariant entries == old(entries) + FromObjects(prefix, objects[..i])
      {
        assert objects[..i + 1][..i] == objects[..i];
        var key := objects[i].key;
        if key != prefix && !IsDirKey(key) {
          entries := entries + [Dirent(Base(key), key, false)];
        }
      }
      assert objects[..|objects|] == objects;
    }
  }

  method ReadS3(s: S3DirStream) returns (all: seq<Dirent>)
    requires s.Valid() && s.Left() == Emitted(s.prefix, s.replies)
    modifies s
    ensures all == Emitted(s.prefix, s.replies)
  {
    hide Emitted, FromPage;
    all := [];
    ghost var whole := s.Left();
    var more := s.HasNext();
    while more
      invariant s.Valid() && (more ==> s.pos < |s.entries|)
      invariant if more then all + s.Left() == whole else all == whole
      decreases |s.replies| - s.token, |s.entries| - s.pos, more
    {
      ghost var left := s.Left();
      var e := s.Next();
      assert all + left == all + [e.value] + s.Left();
      all := all + [e.value];
      more := s.HasNext();
    }
  }

  lemma EmittedAt(prefix: string, replies: seq<Fetch>, k: nat)
    requires k < |replies|
    ensures Emitted(prefix, replies[k..]) ==
      if replies[k].Failed? || FromPage(prefix, replies[k].page) == [] then []
      else FromPage(prefix, replies[k].page) + Emitted(prefix, replies[k + 1..])
    ensures Emitted(prefix, replies[|replies|..]) == []
  {
    assert replies[k..][1..] == replies[k + 1..];
  }

  // ---------------------------------------------------------------- how much comes out

  // Where a page has nothing to show, no later one has.
  predicate NothingHidden(prefix: string, replies: seq<Fetch>) {
    || replies == [] || replies[0].Failed?
    || if FromPage(prefix, replies[0].page) == [] then FromReplies(prefix, replies[1..]) == []
       else NothingHidden(prefix, replies[1..])
  }

  // The stream shows all of the pages exactly when no page without entries comes before one with.
  lemma {:induction false} EmittedAll(prefix: string, replies: seq<Fetch>)
    ensures Emitted(prefix, replies) == FromReplies(prefix, replies) <==> NothingHidden(prefix, replies)
  {
    if replies != [] && replies[0].Served? && FromPage(prefix, replies[0].page) != [] {
      EmittedAll(prefix, replies[1..]);
      var page := FromPage(prefix, replies[0].page);
      if Emitted(prefix, replies) == FromReplies(prefix, replies) {
        assert Emitted(prefix, replies[1..]) == Emitted(prefix, replies)[|page|..];
        assert FromReplies(prefix, replies[1..]) == FromReplies(prefix, replies)[|page|..];
      }
    }
  }

  // ---------------------------------------------------------------- the two show the same

  function AllServed(pages: seq<Page>): seq<Fetch> {
    if pages == [] then [] else AllServed(pages[..|pages| - 1]) + [Served(pages[|pages| - 1])]
  }

  lemma {:induction false} FromRepliesConcat(prefix: string, replies: seq<Fetch>, page: Page)
    requires forall r <- replies :: r.Served?
    ensures FromReplies(prefix, replies + [Served(page)]) == FromReplies(prefix, replies) + FromPage(prefix, page)
  {
    hide FromPage;
    var more := replies + [Served(page)];
    if replies == [] {
      assert more[1..] == [];
    } else {
      assert replies[0] in replies && forall r <- replies[1..] :: r in replies;
      FromRepliesConcat(prefix, replies[1..], page);
      assert more[1..] == replies[1..] + [Served(page)] && more[0] == replies[0];
    }
  }

  lemma {:induction false} FromPrefixesConcat(prefix: string, a: seq<string>, b: seq<string>)
    ensures FromPrefixes(prefix, a + b) == FromPrefixes(prefix, a) + FromPrefixes(prefix, b)
  {
    hide GroupName;
    if b == [] {
      assert a + b == a;
    } else {
      FromPrefixesConcat(prefix, a, b[..|b| - 1]);
      assert (a + b)[..|a + b| - 1] == a + b[..|b| - 1];
    }
  }

  lemma {:induction false} FromObjectsConcat(prefix: string, a: seq<Object>, b: seq<Object>)
    ensures FromObjects(prefix, a + b) == FromObjects(prefix, a) + FromObjects(prefix, b)
  {
    hide Base;
    if b == [] {
      assert a + b == a;
    } else {
      FromObjectsConcat(prefix, a, b[..|b| - 1]);
      assert (a + b)[..|a + b| - 1] == a + b[..|b| - 1];
    }
  }

  // What is filtered out on the way makes no difference: such objects have no entry anyway.
  lemma {:induction false} FromSeen(prefix: string, objects: seq<Object>)
    ensures FromObjects(prefix, Seen(objects, prefix)) == FromObjects(prefix, objects)
  {
    hide Base;
    if objects == [] {
    } else {
      FromSeen(prefix, objects[..|objects| - 1]);
    }
  }

  // Page by page or all at once, the same entries come out, if in another order.
  lemma {:induction false} ByPageOrAtOnce(prefix: string, pages: seq<Page>)
    ensures forall r <- AllServed(pages) :: r.Served?
    ensures multiset(FromReplies(prefix, AllServed(pages))) ==
            multiset(FromPrefixes(prefix, Prefixes(pages)) + FromObjects(prefix, Objects(pages)))
  {
    hide FromPrefixes, FromObjects, Seen;
    if pages == [] {
      NothingFromNothing(prefix);
    } else {
      var init, page := pages[..|pages| - 1], pages[|pages| - 1];
      ByPageOrAtOnce(prefix, init);
      FromRepliesConcat(prefix, AllServed(init), page);
      FromPrefixesConcat(prefix, Prefixes(init), page.prefixes);
      FromObjectsConcat(prefix, Objects(init), page.objects);
      FromSeen(prefix, page.objects);
    }
  }

  lemma NothingFromNothing(prefix: string)
    ensures FromPrefixes(prefix, []) == [] && FromObjects(prefix, []) == []
  {
  }

  lemma {:induction false} FromPrefixesHas(prefix: string, cps: seq<string>, d: Dirent)
    ensures d in FromPrefixes(prefix, cps) <==>
      d.isDir && d.inoOf in cps && d.name == GroupName(prefix, d.inoOf) && d.name != ""
    ensures NoRepeats(cps) ==> NoRepeats(FromPrefixes(prefix, cps))
  {
    hide GroupName;
    if cps == [] {
    } else {
      FromPrefixesHas(prefix, cps[..|cps| - 1], d);
      var cp := cps[|cps| - 1];
      assert cps == cps[..|cps| - 1] + [cp];
      var x := Dirent(GroupName(prefix, cp), cp, true);
      FromPrefixesHas(prefix, cps[..|cps| - 1], x);
      if NoRepeats(cps) {
        assert cp !in cps[..|cps| - 1];
        NoRepeatsAppend(FromPrefixes(prefix, cps[..|cps| - 1]), x);
      }
    }
  }

  lemma {:induction false} FromObjectsHas(prefix: string, objects: seq<Object>, d: Dirent)
    ensures d in FromObjects(prefix, objects) <==>
      !d.isDir && d.inoOf != prefix && !IsDirKey(d.inoOf) && d.name == Base(d.inoOf) && exists o <- objects ::
        o.key == d.inoOf
    ensures (forall i, j :: 0 <= i < j < |objects| ==> objects[i].key != objects[j].key) ==>
      NoRepeats(FromObjects(prefix, objects))
  {
    hide Base;
    if objects == [] {
    } else {
      var init, o := objects[..|objects| - 1], objects[|objects| - 1];
      FromObjectsHas(prefix, init, d);
      assert objects == init + [o];
      var x := Dirent(Base(o.key), o.key, false);
      FromObjectsHas(prefix, init, x);
      if forall i, j :: 0 <= i < j < |objects| ==> objects[i].key != objects[j].key {
        assert forall p <- init :: p.key != o.key;
        NoRepeatsAppend(FromObjects(prefix, init), x);
      }
    }
  }

  lemma NoRepeatsAppend<T>(s: seq<T>, x: T)
    requires NoRepeats(s) && x !in s
    ensures NoRepeats(s + [x])
  {
  }

  lemma NoRepeatsConcat<T>(a: seq<T>, b: seq<T>)
    requires NoRepeats(a) && NoRepeats(b) && forall x <- a :: x !in b
    ensures NoRepeats(a + b)
  {
    forall i, j | 0 <= i < j < |a + b| ensures (a + b)[i] != (a + b)[j] {
      if i < |a| <= j {
        assert a[i] in a && b[j - |a|] in b;
      }
    }
  }

  lemma {:induction false} CountsOnce<T>(s: seq<T>, x: T)
    requires NoRepeats(s)
    ensures multiset(s)[x] == if x in s then 1 else 0
  {
    if s == [] {
    } else {
      CountsOnce(s[1..], x);
      assert s == [s[0]] + s[1..];
      assert multiset(s) == multiset{s[0]} + multiset(s[1..]);
    }
  }

  lemma SameBag<T>(a: seq<T>, b: seq<T>)
    requires NoRepeats(a) && NoRepeats(b) && forall x :: x in a <==> x in b
    ensures multiset(a) == multiset(b)
  {
    forall x ensures multiset(a)[x] == multiset(b)[x] {
      CountsOnce(a, x);
      CountsOnce(b, x);
    }
  }

  // ---------------------------------------------------------------- main result

  lemma TrimAdded(name: string)
    ensures Trim(name + "/") == name
  {
  }

  // The entry S3's stream has for a common prefix - none if there is no name in it.
  lemma GroupDirent(prefix: string, cp: string)
    requires CleanPrefix(prefix) && Groups(prefix, cp)
    ensures GroupName(prefix, cp) == if cp == prefix + "/" then "" else Name(cp)
    ensures cp != prefix + "/" ==> Name(cp) != ""
  {
    hide CleanPrefix, Parent, Name;
    var name := cp[|prefix|..|cp| - 1];
    GroupForm(prefix, cp);
    TrimAdded(name);
    if name == "" {
      assert cp == prefix + "/";
    } else {
      assert |cp| > |prefix + "/"|;
      SplitChild(prefix, name);
    }
  }

  // Every entry of S3's pages is the entry of a row, and the other way round but for a nameless
  // group.
  lemma SameEntries(s3: Bucket, prefix: string, pages: seq<Page>, es: seq<Entry>, d: Dirent)
    requires IsPagination(s3, prefix, pages) && CleanPrefix(prefix)
    requires forall e :: e in es <==> Listed(s3, prefix, e.key) == Some(e)
    ensures d in FromPrefixes(prefix, Prefixes(pages)) + FromObjects(prefix, Objects(pages)) <==>
      d in FromRows(es) && d.inoOf != prefix + "/"
  {
    hide CleanPrefix, Parent, Name, GroupName, Base, IsPagination, Listed, FromRow;
    FromPrefixesHas(prefix, Prefixes(pages), d);
    FromObjectsHas(prefix, Objects(pages), d);
    RowDirent(s3, prefix, es, d);
    if d.isDir {
      SameDir(s3, prefix, pages, d);
    } else {
      SameFile(s3, prefix, pages, d);
    }
  }

  lemma RowDirent(s3: Bucket, prefix: string, es: seq<Entry>, d: Dirent)
    requires forall e :: e in es <==> Listed(s3, prefix, e.key) == Some(e)
    ensures d in FromRows(es) <==> Listed(s3, prefix, d.inoOf).Some? && FromRow(Listed(s3, prefix, d.inoOf).value) == d
  {
    FromRowsHas(es, d);
    if Listed(s3, prefix, d.inoOf).Some? {
      assert Listed(s3, prefix, d.inoOf).value in es;
    }
  }

  lemma SameDir(s3: Bucket, prefix: string, pages: seq<Page>, d: Dirent)
    requires IsPagination(s3, prefix, pages) && CleanPrefix(prefix) && d.isDir
    ensures d.inoOf in Prefixes(pages) && d.name == GroupName(prefix, d.inoOf) && d.name != "" <==>
      Listed(s3, prefix, d.inoOf).Some? && FromRow(Listed(s3, prefix, d.inoOf).value) == d && d.inoOf != prefix + "/"
  {
    hide CleanPrefix, Parent, Name, GroupName;
    if Groups(prefix, d.inoOf) { GroupDirent(prefix, d.inoOf); }
  }

  lemma SameFile(s3: Bucket, prefix: string, pages: seq<Page>, d: Dirent)
    requires IsPagination(s3, prefix, pages) && !d.isDir
    ensures && d.inoOf != prefix && !IsDirKey(d.inoOf) && d.name == Base(d.inoOf)
            && (exists o <- Objects(pages) :: o.key == d.inoOf) <==>
      Listed(s3, prefix, d.inoOf).Some? && FromRow(Listed(s3, prefix, d.inoOf).value) == d && d.inoOf != prefix + "/"
  {
    hide Parent, Base;
    var key := d.inoOf;
    NoDirectDir(prefix, key);
    assert IsDirKey(prefix + "/");
    if key in s3 {
      assert Object(key, s3[key]) in Objects(pages) <==> Direct(prefix, key);
    }
  }

  lemma FromRowsHas(es: seq<Entry>, d: Dirent)
    ensures d in FromRows(es) <==> exists e <- es :: FromRow(e) == d
  {
    if exists e <- es :: FromRow(e) == d {
      var i :| 0 <= i < |es| && FromRow(es[i]) == d;
      assert FromRows(es)[i] == d;
    }
  }

  lemma {:induction false} EmittedIsStart(prefix: string, replies: seq<Fetch>)
    ensures Emitted(prefix, replies) <= FromReplies(prefix, replies)
  {
    if replies != [] && replies[0].Served? {
      EmittedIsStart(prefix, replies[1..]);
    }
  }

  // Read to the end, S3's stream and the catalog's after SyncPrefix show the same entries exactly
  // when no key goes on with a second slash after the prefix, and no page without entries comes
  // before one with entries.
  lemma ReadOutsAgree(rows: Rows, bucket: string, s3: Bucket, prefix: string, pages: seq<Page>, es: seq<Entry>)
    requires IsPagination(s3, prefix, pages) && CleanPrefix(prefix)
    requires forall id <- rows :: id.bucket == bucket ==> rows[id].parent != prefix
    requires IsListing(PutRows(rows, bucket, Entries(pages, prefix, SyncPrefix)), bucket, prefix, es)
    ensures multiset(FromRows(es)) == multiset(Emitted(prefix, AllServed(pages))) <==>
      (!exists k <- s3 :: prefix + "/" <= k) && NothingHidden(prefix, AllServed(pages))
  {
    hide IsPagination, CleanPrefix, IsListing, FromReplies, Emitted, NothingHidden, PutRows, Entries;
    var replies := AllServed(pages);
    var whole, out := FromReplies(prefix, replies), Emitted(prefix, replies);
    StreamsAgree(rows, bucket, s3, prefix, pages, es);
    EmittedAll(prefix, replies);
    EmittedIsStart(prefix, replies);
    assert whole == out + whole[|out|..];
    assert multiset(whole) == multiset(out) + multiset(whole[|out|..]);
    assert |multiset(whole)| == |whole| && |multiset(out)| == |out|;
    if multiset(FromRows(es)) == multiset(out) {
      NotFewer(rows, bucket, s3, prefix, pages, es);
    }
  }

  // The catalog shows no fewer entries than there are on S3's pages.
  lemma NotFewer(rows: Rows, bucket: string, s3: Bucket, prefix: string, pages: seq<Page>, es: seq<Entry>)
    requires IsPagination(s3, prefix, pages) && CleanPrefix(prefix)
    requires forall id <- rows :: id.bucket == bucket ==> rows[id].parent != prefix
    requires IsListing(PutRows(rows, bucket, Entries(pages, prefix, SyncPrefix)), bucket, prefix, es)
    ensures multiset(FromReplies(prefix, AllServed(pages))) <= multiset(FromRows(es))
  {
    hide CleanPrefix, Parent, Name, FromPrefixes, FromObjects, FromReplies, PutRows, Entries, Listed, FromRow;
    hide IsPagination;
    var all := FromPrefixes(prefix, Prefixes(pages)) + FromObjects(prefix, Objects(pages));
    ByPageOrAtOnce(prefix, pages);
    forall e ensures e in es <==> Listed(s3, prefix, e.key) == Some(e) {
      SyncedDirectory(rows, bucket, s3, prefix, pages, SyncPrefix, e);
    }
    NoRepeatsOnPages(s3, prefix, pages);
    forall d ensures multiset(all)[d] <= multiset(FromRows(es))[d] {
      SameEntries(s3, prefix, pages, es, d);
      CountsOnce(all, d);
      assert d in FromRows(es) ==> d in multiset(FromRows(es));
    }
  }

  // S3's pages and the catalog's listing after SyncPrefix hold the same entries exactly when no
  // key goes on with a second slash after the prefix; clean keys never do.
  lemma StreamsAgree(rows: Rows, bucket: string, s3: Bucket, prefix: string, pages: seq<Page>, es: seq<Entry>)
    requires IsPagination(s3, prefix, pages) && CleanPrefix(prefix)
    requires forall id <- rows :: id.bucket == bucket ==> rows[id].parent != prefix
    requires IsListing(PutRows(rows, bucket, Entries(pages, prefix, SyncPrefix)), bucket, prefix, es)
    ensures multiset(FromRows(es)) == multiset(FromReplies(prefix, AllServed(pages))) <==> !exists k <- s3 ::
      prefix + "/" <= k
  {
    hide CleanPrefix, Parent, Name, FromPrefixes, FromObjects, FromReplies, PutRows, Entries, Listed, FromRow;
    var all := FromPrefixes(prefix, Prefixes(pages)) + FromObjects(prefix, Objects(pages));
    ByPageOrAtOnce(prefix, pages);
    forall e ensures e in es <==> Listed(s3, prefix, e.key) == Some(e) {
      SyncedDirectory(rows, bucket, s3, prefix, pages, SyncPrefix, e);
    }
    forall d ensures d in all <==> d in FromRows(es) && d.inoOf != prefix + "/" {
      SameEntries(s3, prefix, pages, es, d);
    }
    NoRepeatsOnPages(s3, prefix, pages);
    NoRepeatsInListing(es);
    Nameless(s3, prefix, es);
    if exists k <- s3 :: prefix + "/" <= k {
      var d :| d in FromRows(es) && d.inoOf == prefix + "/";
      assert d !in all && d !in multiset(all) && d in multiset(FromRows(es));
    } else {
      SameBag(FromRows(es), all);
    }
  }

  // The nameless group has a row if there is such a key.
  lemma Nameless(s3: Bucket, prefix: string, es: seq<Entry>)
    requires forall e :: e in es <==> Listed(s3, prefix, e.key) == Some(e)
    ensures (exists d <- FromRows(es) :: d.inoOf == prefix + "/") <==> exists k <- s3 :: prefix + "/" <= k
  {
    var cp := prefix + "/";
    assert Groups(prefix, cp) by { assert cp[|prefix|..|cp| - 1] == ""; }
    NoDirectDir(prefix, cp);
    if exists k <- s3 :: cp <= k {
      assert DirEntry(cp, 0) in es;
      FromRowsHas(es, FromRow(DirEntry(cp, 0)));
    } else {
      forall d <- FromRows(es) ensures d.inoOf != cp {
        FromRowsHas(es, d);
      }
    }
  }

  lemma NoRepeatsOnPages(s3: Bucket, prefix: string, pages: seq<Page>)
    requires IsPagination(s3, prefix, pages)
    ensures NoRepeats(FromPrefixes(prefix, Prefixes(pages)) + FromObjects(prefix, Objects(pages)))
  {
    hide FromPrefixes, FromObjects, Base, GroupName;
    var dirs, files := FromPrefixes(prefix, Prefixes(pages)), FromObjects(prefix, Objects(pages));
    forall i, j | 0 <= i < j < |Objects(pages)| ensures Objects(pages)[i].key != Objects(pages)[j].key {
      assert IsObject(s3, prefix, Objects(pages)[i]) && IsObject(s3, prefix, Objects(pages)[j]);
    }
    forall d ensures d in dirs ==> d.isDir {
      FromPrefixesHas(prefix, Prefixes(pages), d);
    }
    forall d ensures d in files ==> !d.isDir {
      FromObjectsHas(prefix, Objects(pages), d);
    }
    FromPrefixesHas(prefix, Prefixes(pages), Dirent("", "", true));
    FromObjectsHas(prefix, Objects(pages), Dirent("", "", true));
    NoRepeatsConcat(dirs, files);
  }

  lemma NoRepeatsInListing(es: seq<Entry>)
    requires Ordered(es)
    ensures NoRepeats(FromRows(es))
  {
    hide Leq;
    assert forall i :: 0 <= i < |es| ==> FromRows(es)[i].inoOf == es[i].key;
  }
}
