/**
 Bringing the table up to date from S3 (internal/catalog/sync.go): the background pass over a
 bucket's root and known directories, and the refresh of one directory on demand.
 */
module Sync {
  import opened Ids
  import opened Keys
  import opened Table
  import opened DirCache
  import opened NegModel
  import opened NegCache
  import opened Listing
  import opened Coherence

  // One ListObjects call: an error, or a page, whether there are more, and whether the
  // transaction with its rows commits.
  datatype Response = Failed | Served(page: Page, more: bool, stored: bool)

  // What S3 answers to the calls of one pass: each page but the last says that there are more.
  predicate Replies(prefix: string, replies: seq<Response>) {
    && replies != []
    && forall i :: 0 <= i < |replies| ==> ReplyAt(prefix, replies[i], i == |replies| - 1)
  }

  predicate ReplyAt(prefix: string, r: Response, last: bool) {
    match r
    case Failed => last
    case Served(page, more, _) => PageFor(prefix, page) && more == !last
  }

  function Pages(replies: seq<Response>): seq<Page>
    requires forall r <- replies :: r.Served?
  {
    if replies == [] then [] else Pages(replies[..|replies| - 1]) + [replies[|replies| - 1].page]
  }

  // A page's rows: the common prefixes first, then the objects.
  method RowsOf(m: Maker, prefix: string, page: Page) returns (entries: seq<Entry>)
    ensures entries == PageEntries(m, prefix, page)
  {
    hide DirEntry, Make;
    entries := [];
    for i := 0 to |page.prefixes|
      invariant entries == DirEntries(page.prefixes[..i])
    {
      assert page.prefixes[..i + 1][..i] == page.prefixes[..i];
      entries := entries + [DirEntry(page.prefixes[i], 0)];
    }
    assert page.prefixes[..|page.prefixes|] == page.prefixes;
    var files := FileRowsOf(m, prefix, page.objects);
    entries := entries + files;
  }

  method FileRowsOf(m: Maker, prefix: string, objects: seq<Object>) returns (entries: seq<Entry>)
    ensures entries == Made(m, prefix, objects)
  {
    hide Make;
    entries := [];
    for i := 0 to |objects|
      invariant entries == Made(m, prefix, objects[..i])
    {
      assert objects[..i + 1][..i] == objects[..i];
      var made := Make(m, prefix, objects[i]);
      if made.Some? {
        entries := entries + [made.value];
      }
    }
    assert objects[..|objects|] == objects;
  }

  predicate ServedUpTo(replies: seq<Response>, n: nat) {
    n <= |replies| && forall i :: 0 <= i < n ==> replies[i].Served?
  }

  // A reply that ends a pass early: no page, or rows that could not be stored.
  predicate Stops(m: Maker, prefix: string, r: Response) {
    r.Failed? || (!r.stored && PageEntries(m, prefix, SeenPage(r.page, prefix)) != [])
  }

  // The pass goes through the first n replies.
  predicate GoesThrough(m: Maker, prefix: string, replies: seq<Response>, n: nat) {
    n <= |replies| && forall i :: 0 <= i < n ==> !Stops(m, prefix, replies[i])
  }

  predicate StopsAt(m: Maker, prefix: string, replies: seq<Response>, n: nat) {
    n < |replies| && GoesThrough(m, prefix, replies, n) && Stops(m, prefix, replies[n])
  }

  // The rows of the first n pages.
  function FirstRows(m: Maker, prefix: string, replies: seq<Response>, n: nat): seq<Entry>
    requires ServedUpTo(replies, n)
  {
    Entries(Pages(replies[..n]), prefix, m)
  }

  lemma NextRows(m: Maker, prefix: string, replies: seq<Response>, n: nat)
    requires ServedUpTo(replies, n + 1)
    ensures FirstRows(m, prefix, replies, n + 1) ==
            FirstRows(m, prefix, replies, n) + PageEntries(m, prefix, SeenPage(replies[n].page, prefix))
  {
    assert replies[..n + 1][..n] == replies[..n];
    var pages := Pages(replies[..n + 1]);
    assert pages[..|pages| - 1] == Pages(replies[..n]);
  }

  // The first n pages have been ingested, in order.
  ghost predicate Ingested(rows: Rows, rows': Rows, bucket: string, m: Maker, prefix: string, replies: seq<Response>,
                           n: nat) {
    ServedUpTo(replies, n) && rows' == PutRows(rows, bucket, FirstRows(m, prefix, replies, n))
  }

  lemma IngestedNone(rows: Rows, bucket: string, m: Maker, prefix: string, replies: seq<Response>)
    ensures Ingested(rows, rows, bucket, m, prefix, replies, 0) && FirstRows(m, prefix, replies, 0) == []
  {
    assert replies[..0] == [];
  }

  lemma IngestedNext(rows: Rows, rows': Rows, bucket: string, m: Maker, prefix: string, replies: seq<Response>, n: nat)
    requires Ingested(rows, rows', bucket, m, prefix, replies, n) && n < |replies| && replies[n].Served?
    ensures var es := PageEntries(m, prefix, SeenPage(replies[n].page, prefix));
      && ServedUpTo(replies, n) && ServedUpTo(replies, n + 1)
      && FirstRows(m, prefix, replies, n + 1) == FirstRows(m, prefix, replies, n) + es
      && Ingested(rows, PutRows(rows', bucket, es), bucket, m, prefix, replies, n + 1)
      && (es == [] ==> PutRows(rows', bucket, es) == rows')
  {
    NextRows(m, prefix, replies, n);
    PutRowsConcat(rows, bucket, FirstRows(m, prefix, replies, n),
                  PageEntries(m, prefix, SeenPage(replies[n].page, prefix)));
  }

  // They are well formed and belong to the directory that was listed.
  lemma {:induction false} FirstRowsWellFormed(m: Maker, prefix: string, replies: seq<Response>, n: nat, e: Entry)
    requires Replies(prefix, replies) && ServedUpTo(replies, n) && e in FirstRows(m, prefix, replies, n)
    ensures WellFormed(e) && prefix <= e.key && (CleanPrefix(prefix) ==> e.parent == prefix)
  {
    if n == 0 {
    } else {
      NextRows(m, prefix, replies, n - 1);
      if e in FirstRows(m, prefix, replies, n - 1) {
        FirstRowsWellFormed(m, prefix, replies, n - 1, e);
      } else {
        assert ReplyAt(prefix, replies[n - 1], n - 1 == |replies| - 1);
        EntriesWellFormed(m, prefix, replies[n - 1].page, e);
      }
    }
  }

  // What one pass of the background sync meets on its way through one directory.
  datatype Script = Script(replies: seq<Response>, stopAt: nat)

  lemma PassKeeps(rows: Rows, items: seq<Item>, buckets: Listings, buckets': Listings, bucket: string, prefix: string,
                  replies: seq<Response>)
    requires Coherence.Coherent(rows, items, buckets) && CleanPrefix(prefix)
    requires Replies(prefix, replies) && ServedUpTo(replies, |replies|)
    requires forall b, p :: At(buckets', b, p) == (if b == bucket && p == prefix then None else At(buckets, b, p))
    ensures Coherence.Coherent(PutRows(rows, bucket, FirstRows(Maker.SyncPrefix, prefix, replies, |replies|)),
                               Filter(items, NotUnder(bucket, prefix)), buckets')
  {
    hide Coherence.Coherent, FirstRows, CleanPrefix, PutRows;
    var es := FirstRows(Maker.SyncPrefix, prefix, replies, |replies|);
    forall e <- es ensures WellFormed(e) && prefix <= e.key && e.parent == prefix {
      FirstRowsWellFormed(Maker.SyncPrefix, prefix, replies, |replies|, e);
    }
    RefreshKeeps(rows, items, buckets, buckets', bucket, prefix, es);
  }

  class SyncManager {
    const store: Store
    const dirs: DirCache
    const neg: NegCache

    constructor (store: Store, dirs: DirCache, neg: NegCache)
      ensures this.store == store && this.dirs == dirs && this.neg == neg
    {
      this.store, this.dirs, this.neg := store, dirs, neg;
    }

    // One directory level, page after page, until the last, an error, or stopCh.
    method SyncOnePrefix(bucket: string, prefix: string, world: Script)
      returns (total: nat, ok: bool, ghost n: nat)
      requires Replies(prefix, world.replies)
      modifies store
      ensures Ingested(old(store.rows), store.rows, bucket, OnePrefix, prefix, world.replies, n)
      ensures total == |FirstRows(OnePrefix, prefix, world.replies, n)|
      ensures ok <==> n == |world.replies| || n == world.stopAt
      ensures n <= world.stopAt && GoesThrough(OnePrefix, prefix, world.replies, n)
      ensures !ok ==> Stops(OnePrefix, prefix, world.replies[n])
    {
      hide FirstRows, PutRows, PageEntries, PageFor, SeenPage;
      var replies, i := world.replies, 0;
      total, ok, n := 0, false, 0;
      IngestedNone(store.rows, bucket, OnePrefix, prefix, replies);
      while true
        invariant i == n < |replies| && n <= world.stopAt && !ok
        invariant GoesThrough(OnePrefix, prefix, replies, n)
        invariant Ingested(old(store.rows), store.rows, bucket, OnePrefix, prefix, replies, n)
        invariant total == |FirstRows(OnePrefix, prefix, replies, n)|
        decreases |replies| - i
      {
        if i == world.stopAt {
          return total, true, n;
        }
        assert ReplyAt(prefix, replies[i], i == |replies| - 1);
        if replies[i].Failed? {
          return;
        }
        var entries := RowsOf(OnePrefix, prefix, SeenPage(replies[i].page, prefix));
        if entries != [] && !replies[i].stored {
          return;
        }
        IngestedNext(old(store.rows), store.rows, bucket, OnePrefix, prefix, replies, n);
        if entries != [] {
          store.PutBatch(bucket, entries);
          total := total + |entries|;
        }
        i, n := i + 1, n + 1;
        if !replies[i - 1].more {
          return total, true, n;
        }
      }
    }

    ghost predicate Coherent()
      reads store, dirs, neg
    {
      Coherence.Coherent(store.rows, neg.items, dirs.buckets)
    }

    // One directory on demand. Only a pass that reaches the end clears the caches, so only that
    // is sure to leave them coherent.
    method SyncPrefix(bucket: string, prefix: string, registered: bool, replies: seq<Response>)
      returns (ok: bool, ghost n: nat)
      requires Replies(prefix, replies) && neg.Valid()
      modifies store, dirs, neg
      ensures neg.Valid() && neg.clock == old(neg.clock) && forall x <- neg.lru :: x in old(neg.lru)
      ensures Ingested(old(store.rows), store.rows, bucket, Maker.SyncPrefix, prefix, replies, n)
      ensures !registered ==> ok && n == 0
      ensures registered ==>
        if ok then n == |replies| && GoesThrough(Maker.SyncPrefix, prefix, replies, n)
        else StopsAt(Maker.SyncPrefix, prefix, replies, n)
      ensures !(registered && ok) ==> dirs.buckets == old(dirs.buckets) && neg.items == old(neg.items)
      ensures registered && ok ==> neg.items == Filter(old(neg.items), NotUnder(bucket, prefix))
      ensures registered && ok ==> forall b, p ::
                At(dirs.buckets, b, p) == (if b == bucket && p == prefix then None else At(old(dirs.buckets), b, p))
      ensures old(Coherent()) && CleanPrefix(prefix) && ok ==> Coherent()
    {
      hide FirstRows, PutRows, PageEntries, PageFor, SeenPage, Coherence.Coherent, CleanPrefix, Filter;
      IngestedNone(store.rows, bucket, Maker.SyncPrefix, prefix, replies);
      n, ok := 0, false;
      if !registered {
        PutNone(store.rows, bucket);
        return true, 0;
      }
      var i := 0;
      while true
        invariant i == n < |replies| && !ok
        invariant Ingested(old(store.rows), store.rows, bucket, Maker.SyncPrefix, prefix, replies, n)
        invariant GoesThrough(Maker.SyncPrefix, prefix, replies, n)
        modifies store
        decreases |replies| - i
      {
        assert ReplyAt(prefix, replies[i], i == |replies| - 1);
        if replies[i].Failed? {
          return;
        }
        var entries := RowsOf(Maker.SyncPrefix, prefix, SeenPage(replies[i].page, prefix));
        if entries != [] && !replies[i].stored {
          return;
        }
        IngestedNext(old(store.rows), store.rows, bucket, Maker.SyncPrefix, prefix, replies, n);
        if entries != [] {
          store.PutBatch(bucket, entries);
        }
        i, n := i + 1, n + 1;
        if !replies[i - 1].more {
          break;
        }
      }
      dirs.Invalidate(bucket, prefix);
      neg.RemovePrefix(bucket, prefix);
      ok := true;
      if old(Coherent()) && CleanPrefix(prefix) {
        PassKeeps(old(store.rows), old(neg.items), old(dirs.buckets), dirs.buckets, bucket, prefix, replies);
      }
    }

    // The background pass: the root, then the directories known when the root was done. Rows are
    // only added or overridden; listings are dropped at the end, absent keys never.
    method SyncBucket(bucket: string, root: Script, dirsOk: bool, world: string -> Script, stopBefore: nat)
      returns (completed: bool, ghost parts: seq<Part>)
      requires RowsWellFormed(store.rows)
      requires Replies("", root.replies) && forall d :: Replies(d, world(d).replies)
      modifies store, dirs
      ensures store.rows == PutRows(old(store.rows), bucket, PartRows(parts)) && RowsWellFormed(store.rows)
      ensures (forall e <- PartRows(parts) :: WellFormed(e)) && forall p <- parts :: Ran(p)
      ensures |parts| >= 1 && parts[0].prefix == "" && parts[0].script == root
      ensures var known := Known(PutRows(old(store.rows), bucket, PartRows(parts[..1])), bucket);
        && (forall p <- parts[1..] :: p.prefix in known && p.script == world(p.prefix))
        && (completed && dirsOk ==> forall d <- known :: d != "" ==> exists p <- parts[1..] :: p.prefix == d)
        && (forall i, j :: 1 <= i < j < |parts| ==> parts[i].prefix != parts[j].prefix)
        && (completed <==> Reached(parts[0]) && (dirsOk ==> |known| <= stopBefore))
        && (!completed && Reached(parts[0]) ==> |parts| == 1 + stopBefore)
      ensures completed ==> forall b, p ::
        At(dirs.buckets, b, p) == (if b == bucket then None else At(old(dirs.buckets), b, p))
      ensures !completed ==> dirs.buckets == old(dirs.buckets)
      ensures completed && old(DirsCoherent(store.rows, dirs.buckets)) ==> DirsCoherent(store.rows, dirs.buckets)
    {
      hide FirstRows, PutRows, PageEntries, PageFor, SeenPage, DirsCoherent, PartRows, Replies, Ran, Reached;
      hide RowsWellFormed, GoesThrough, Stops, Known;
      parts := [];
      NoParts(store.rows, bucket);
      completed := false;
      var ok;
      ok, parts := PassOne(bucket, "", root, parts, store.rows);
      assert parts[..1] == parts && parts[1..] == [];
      if !ok {
        return;
      }
      ghost var first, rootDone := parts, store.rows;
      KnownMeans(rootDone, bucket);
      var dirKeys := [];
      if dirsOk {
        dirKeys := store.KnownDirs(bucket);
      }
      ok, parts := PassAll(bucket, dirKeys, world, stopBefore, parts, old(store.rows));
      assert parts[..1] == first && forall p <- parts[1..] :: p in parts;
      assert dirsOk ==> |dirKeys| == |Known(rootDone, bucket)|;
      assert dirsOk ==> forall d <- Known(rootDone, bucket) :: d in dirKeys;
      PartsOf(parts, dirKeys, world);
      if !ok {
        return;
      }
      dirs.InvalidateAll(bucket);
      completed := true;
      if old(DirsCoherent(store.rows, dirs.buckets)) {
        BatchKeepsListings(old(store.rows), old(dirs.buckets), dirs.buckets, bucket, PartRows(parts));
      }
    }

    // The directories one after the other, each as far as it gets, until stopCh is seen closed.
    method PassAll(bucket: string, dirKeys: seq<string>, world: string -> Script, stopBefore: nat,
                   ghost root: seq<Part>, ghost rows: Rows)
      returns (done: bool, ghost parts: seq<Part>)
      requires RowsWellFormed(store.rows) && forall d :: Replies(d, world(d).replies)
      requires store.rows == PutRows(rows, bucket, PartRows(root)) && forall e <- PartRows(root) :: WellFormed(e)
      requires |root| == 1 && (forall p <- root :: Ran(p)) && "" !in dirKeys
      modifies store
      ensures store.rows == PutRows(rows, bucket, PartRows(parts)) && forall e <- PartRows(parts) :: WellFormed(e)
      ensures RowsWellFormed(store.rows) && forall p <- parts :: Ran(p)
      ensures done <==> |dirKeys| <= stopBefore
      ensures |parts| == 1 + (if done then |dirKeys| else stopBefore) && parts[0] == root[0]
      ensures forall j ::
        1 <= j < |parts| ==> parts[j].prefix == dirKeys[j - 1] && parts[j].script == world(dirKeys[j - 1])
    {
      hide FirstRows, PutRows, PageEntries, PartRows, Replies, Ran, Reached, RowsWellFormed, GoesThrough, Stops;
      hide WellFormed;
      parts := root;
      for i := 0 to |dirKeys|
        invariant store.rows == PutRows(rows, bucket, PartRows(parts)) && RowsWellFormed(store.rows)
        invariant (forall e <- PartRows(parts) :: WellFormed(e)) && forall p <- parts :: Ran(p)
        invariant |parts| == 1 + i && i <= stopBefore && parts[0] == root[0]
        invariant forall j :: 1 <= j < |parts| ==>
          parts[j].prefix == dirKeys[j - 1] && parts[j].script == world(dirKeys[j - 1])
      {
        if dirKeys[i] == "" {
          continue;
        }
        if i == stopBefore {
          return false, parts;
        }
        ghost var before := parts;
        var _, more := PassOne(bucket, dirKeys[i], world(dirKeys[i]), parts, rows);
        parts := more;
        assert forall j :: 0 <= j < |before| ==> parts[j] == before[j];
      }
      done := true;
    }

    // One directory of the background pass, added to what the pass has ingested before.
    method PassOne(bucket: string, prefix: string, script: Script, ghost before: seq<Part>, ghost rows: Rows)
      returns (ok: bool, ghost parts: seq<Part>)
      requires Replies(prefix, script.replies) && RowsWellFormed(store.rows)
      requires store.rows == PutRows(rows, bucket, PartRows(before)) && forall e <- PartRows(before) :: WellFormed(e)
      requires forall p <- before :: Ran(p)
      modifies store
      ensures store.rows == PutRows(rows, bucket, PartRows(parts)) && forall e <- PartRows(parts) :: WellFormed(e)
      ensures RowsWellFormed(store.rows) && forall p <- parts :: Ran(p)
      ensures |parts| == |before| + 1 && parts[..|before|] == before
      ensures parts[|before|].prefix == prefix && parts[|before|].script == script
      ensures ok <==> Reached(parts[|before|])
    {
      hide FirstRows, PutRows, Replies;
      ghost var n: nat;
      var total: nat;
      ghost var was := store.rows;
      total, ok, n := SyncOnePrefix(bucket, prefix, script);
      ghost var added := FirstRows(OnePrefix, prefix, script.replies, n);
      forall e <- added ensures WellFormed(e) {
        FirstRowsWellFormed(OnePrefix, prefix, script.replies, n, e);
      }
      PutRowsConcat(rows, bucket, PartRows(before), added);
      PutRowsWellFormed(was, bucket, added);
      parts := before + [Part(prefix, script, n)];
      assert parts[..|before|] == before;
    }
  }

  // How far the pass over one directory got: to the last page, to stopCh, or to an error.
  datatype Part = Part(prefix: string, script: Script, n: nat)

  predicate Reached(p: Part) {
    p.n == |p.script.replies| || p.n == p.script.stopAt
  }

  predicate Ran(p: Part) {
    && ServedUpTo(p.script.replies, p.n) && p.n <= p.script.stopAt
    && GoesThrough(OnePrefix, p.prefix, p.script.replies, p.n)
    && (Reached(p) || Stops(OnePrefix, p.prefix, p.script.replies[p.n]))
  }

  // The rows that the parts brought, in order.
  function PartRows(parts: seq<Part>): seq<Entry> {
    if parts == [] then []
    else
      var p := parts[|parts| - 1];
      PartRows(parts[..|parts| - 1]) +
      (if ServedUpTo(p.script.replies, p.n) then FirstRows(OnePrefix, p.prefix, p.script.replies, p.n) else [])
  }

  // The parts after the first are those of the directories, as far as the pass got.
  lemma PartsOf(parts: seq<Part>, dirKeys: seq<string>, world: string -> Script)
    requires 1 <= |parts| <= 1 + |dirKeys|
    requires forall j ::
      1 <= j < |parts| ==> parts[j].prefix == dirKeys[j - 1] && parts[j].script == world(dirKeys[j - 1])
    requires forall i, j :: 0 <= i < j < |dirKeys| ==> dirKeys[i] != dirKeys[j]
    ensures forall p <- parts[1..] :: p.prefix in dirKeys && p.script == world(p.prefix)
    ensures forall i, j :: 1 <= i < j < |parts| ==> parts[i].prefix != parts[j].prefix
    ensures |parts| == 1 + |dirKeys| ==> forall d <- dirKeys :: exists p <- parts[1..] :: p.prefix == d
  {
    if |parts| == 1 + |dirKeys| {
      forall d <- dirKeys ensures exists p <- parts[1..] :: p.prefix == d {
        var j :| 0 <= j < |dirKeys| && dirKeys[j] == d;
        assert parts[1..][j].prefix == d;
      }
    }
  }

  lemma KnownMeans(rows: Rows, bucket: string)
    ensures forall d :: d in Known(rows, bucket) <==> ObjKey(bucket, d) in rows && IsDirKey(d)
  {
    assert forall d: string :: ObjKey(bucket, d).key == d;
  }

  lemma NoParts(rows: Rows, bucket: string)
    ensures PartRows([]) == [] && PutRows(rows, bucket, []) == rows
  {
  }

  // The directories that the table knows of.
  lemma PutNone(rows: Rows, bucket: string)
    ensures PutRows(rows, bucket, []) == rows
  {
  }
}
