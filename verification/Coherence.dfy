/**
 What the catalog's two caches owe the table: a key cached as absent has no row, a cached listing
 is the table's listing of that directory, and rows are well formed. Which changes of the three
 keep that, told apart from who makes them.
 */
module Coherence {
  import opened Ids
  import opened Keys
  import opened Table
  import opened DirCache
  import opened NegModel

  ghost predicate NegCoherent(rows: Rows, items: seq<Item>) {
    forall x <- items :: ObjKey(x.bucket, x.key) !in rows
  }

  ghost predicate DirsCoherent(rows: Rows, buckets: Listings) {
    forall b, p :: At(buckets, b, p).Some? ==> IsListing(rows, b, p, At(buckets, b, p).value.entries)
  }

  ghost predicate Coherent(rows: Rows, items: seq<Item>, buckets: Listings) {
    RowsWellFormed(rows) && NegCoherent(rows, items) && DirsCoherent(rows, buckets)
  }

  // The directory has the same rows before and after.
  ghost predicate SameDir(rows: Rows, rows': Rows, bucket: string, parent: string) {
    forall e :: InDir(rows, bucket, parent, e) <==> InDir(rows', bucket, parent, e)
  }

  // No listing has been added, and of directories that changed none is left.
  lemma ListingsKept(rows: Rows, rows': Rows, buckets: Listings, buckets': Listings)
    requires DirsCoherent(rows, buckets)
    requires forall b, p ::
      At(buckets', b, p).Some? ==> At(buckets', b, p) == At(buckets, b, p) && SameDir(rows, rows', b, p)
    ensures DirsCoherent(rows', buckets')
  {
    forall b, p | At(buckets', b, p).Some? ensures IsListing(rows', b, p, At(buckets', b, p).value.entries) {
      assert IsListing(rows, b, p, At(buckets, b, p).value.entries);
    }
  }

  // A batch of entries changes no directory but their parents.
  lemma BatchElsewhere(rows: Rows, bucket: string, es: seq<Entry>, b: string, p: string)
    requires RowsWellFormed(rows) && forall e <- es :: WellFormed(e)
    requires b != bucket || forall e <- es :: e.parent != p
    ensures SameDir(rows, PutRows(rows, bucket, es), b, p)
  {
    forall e ensures InDir(rows, b, p, e) <==> InDir(PutRows(rows, bucket, es), b, p, e) {
      PutRowsRow(rows, bucket, es, b, e.key);
    }
  }

  // Deleting a row changes only the directory it is in.
  lemma DeleteElsewhere(rows: Rows, bucket: string, key: string, b: string, p: string)
    requires RowsWellFormed(rows)
    requires b != bucket || ObjKey(bucket, key) !in rows || rows[ObjKey(bucket, key)].parent != p
    ensures SameDir(rows, rows - {ObjKey(bucket, key)}, b, p)
  {
  }

  lemma PrefixElsewhere(rows: Rows, bucket: string, prefix: string, b: string, p: string)
    requires b != bucket
    ensures SameDir(rows, rows - WithPrefix(rows, bucket, prefix), b, p)
  {
  }

  // ---------------------------------------------------------------- what each change keeps

  lemma FilteredNegatives(rows: Rows, items: seq<Item>, keep: Item -> bool)
    requires NegCoherent(rows, items)
    ensures NegCoherent(rows, Filter(items, keep))
  {
    forall x <- Filter(items, keep) ensures ObjKey(x.bucket, x.key) !in rows {
      FilterMember(items, keep, x);
    }
  }

  // A batch of one directory's children, then their keys out of the one cache and the directory
  // out of the other.
  lemma RefreshKeeps(rows: Rows, items: seq<Item>, buckets: Listings, buckets': Listings,
                     bucket: string, prefix: string, es: seq<Entry>)
    requires Coherent(rows, items, buckets)
    requires forall e <- es :: WellFormed(e) && prefix <= e.key && e.parent == prefix
    requires forall b, p :: At(buckets', b, p) == (if b == bucket && p == prefix then None else At(buckets, b, p))
    ensures Coherent(PutRows(rows, bucket, es), Filter(items, NotUnder(bucket, prefix)), buckets')
  {
    var rows', items' := PutRows(rows, bucket, es), Filter(items, NotUnder(bucket, prefix));
    PutRowsWellFormed(rows, bucket, es);
    forall b, p | At(buckets', b, p).Some?
      ensures At(buckets', b, p) == At(buckets, b, p) && SameDir(rows, rows', b, p)
    {
      BatchElsewhere(rows, bucket, es, b, p);
    }
    ListingsKept(rows, rows', buckets, buckets');
    forall x <- items' ensures ObjKey(x.bucket, x.key) !in rows' {
      FilterMember(items, NotUnder(bucket, prefix), x);
      PutRowsRow(rows, bucket, es, x.bucket, x.key);
    }
  }

  // A batch into a bucket whose listings have all been dropped.
  lemma BatchKeepsListings(rows: Rows, buckets: Listings, buckets': Listings, bucket: string, es: seq<Entry>)
    requires RowsWellFormed(rows) && DirsCoherent(rows, buckets)
    requires forall e <- es :: WellFormed(e)
    requires forall b, p :: At(buckets', b, p) == (if b == bucket then None else At(buckets, b, p))
    ensures RowsWellFormed(PutRows(rows, bucket, es)) && DirsCoherent(PutRows(rows, bucket, es), buckets')
  {
    var rows' := PutRows(rows, bucket, es);
    PutRowsWellFormed(rows, bucket, es);
    forall b, p | At(buckets', b, p).Some?
      ensures At(buckets', b, p) == At(buckets, b, p) && SameDir(rows, rows', b, p)
    {
      BatchElsewhere(rows, bucket, es, b, p);
    }
    ListingsKept(rows, rows', buckets, buckets');
  }

  lemma AddedNegatives(rows: Rows, items: seq<Item>, bucket: string, key: string, expires: int, maxSize: nat)
    requires NegCoherent(rows, items) && ObjKey(bucket, key) !in rows
    ensures NegCoherent(rows, Added(items, bucket, key, expires, maxSize))
  {
    FilteredNegatives(rows, items, NotKey(bucket, key));
    assert forall x <- Added(items, bucket, key, expires, maxSize) ::
      x in Without(items, bucket, key) || x == Item(bucket, key, expires);
  }

  lemma LiveNegative(rows: Rows, items: seq<Item>, bucket: string, key: string, now: int)
    requires NegCoherent(rows, items) && Holds(Live(items, now), bucket, key)
    ensures ObjKey(bucket, key) !in rows
  {
    var x :| x in Live(items, now) && Is(x, bucket, key);
    FilterMember(items, NegModel.LiveAt(now), x);
  }

  // Keys of the bucket outside this set.
  function NotAmong(bucket: string, keys: set<string>): Item -> bool {
    (x: Item) => !(x.bucket == bucket && x.key in keys)
  }

  // A batch, then its keys out of the one cache and their directories out of the other.
  lemma BatchKeeps(rows: Rows, items: seq<Item>, buckets: Listings, buckets': Listings, bucket: string, es: seq<Entry>)
    requires Coherent(rows, items, buckets)
    requires forall e <- es :: WellFormed(e)
    requires forall b, p ::
      At(buckets', b, p) == (if b == bucket && p in (set e <- es :: e.parent) then None else At(buckets, b, p))
    ensures Coherent(PutRows(rows, bucket, es), Filter(items, NotAmong(bucket, set e <- es :: e.key)), buckets')
  {
    var rows', items' := PutRows(rows, bucket, es), Filter(items, NotAmong(bucket, set e <- es :: e.key));
    PutRowsWellFormed(rows, bucket, es);
    forall b, p | At(buckets', b, p).Some?
      ensures At(buckets', b, p) == At(buckets, b, p) && SameDir(rows, rows', b, p)
    {
      BatchElsewhere(rows, bucket, es, b, p);
    }
    ListingsKept(rows, rows', buckets, buckets');
    forall x <- items' ensures ObjKey(x.bucket, x.key) !in rows' {
      FilterMember(items, NotAmong(bucket, set e <- es :: e.key), x);
      PutRowsRow(rows, bucket, es, x.bucket, x.key);
    }
  }

  lemma PutKeeps(rows: Rows, items: seq<Item>, buckets: Listings, buckets': Listings, bucket: string, e: Entry)
    requires Coherent(rows, items, buckets) && WellFormed(e)
    requires forall b, p :: At(buckets', b, p) == (if b == bucket && p == e.parent then None else At(buckets, b, p))
    ensures Coherent(PutRow(rows, bucket, e), Without(items, bucket, e.key), buckets')
  {
    hide Coherent, WellFormed, Filter;
    var es := [e];
    assert (set x <- es :: x.parent) == {e.parent} && (set x <- es :: x.key) == {e.key} by { assert es[0] == e; }
    assert es[..0] == [];
    assert PutRows(rows, bucket, es) == PutRow(rows, bucket, e);
    BatchKeeps(rows, items, buckets, buckets', bucket, es);
    FilterAgree(items, NotAmong(bucket, set x <- es :: x.key), NotKey(bucket, e.key));
  }

  // A delete that drops the listing of the directory the row was in, if there was a row.
  lemma DeleteKeeps(rows: Rows, items: seq<Item>, buckets: Listings, buckets': Listings, bucket: string, key: string)
    requires Coherent(rows, items, buckets)
    requires var row := Row(rows, bucket, key);
      forall b, p ::
        At(buckets', b, p) == (if row.Some? && b == bucket && p == row.value.parent then None else At(buckets, b, p))
    ensures Coherent(rows - {ObjKey(bucket, key)}, Without(items, bucket, key), buckets')
  {
    var rows' := rows - {ObjKey(bucket, key)};
    forall b, p | At(buckets', b, p).Some?
      ensures At(buckets', b, p) == At(buckets, b, p) && SameDir(rows, rows', b, p)
    {
      DeleteElsewhere(rows, bucket, key, b, p);
    }
    ListingsKept(rows, rows', buckets, buckets');
    FilteredNegatives(rows, items, NotKey(bucket, key));
  }

  // If the row could not be read first, its listing stays and is wrong from then on.
  lemma BlindDeleteBreaks(rows: Rows, items: seq<Item>, buckets: Listings, bucket: string, key: string)
    requires Coherent(rows, items, buckets)
    ensures Coherent(rows - {ObjKey(bucket, key)}, Without(items, bucket, key), buckets) <==>
              Row(rows, bucket, key).None? || At(buckets, bucket, Parent(key)).None?
  {
    var rows', row := rows - {ObjKey(bucket, key)}, Row(rows, bucket, key);
    FilteredNegatives(rows, items, NotKey(bucket, key));
    if row.Some? && At(buckets, bucket, Parent(key)).Some? {
      assert InDir(rows, bucket, Parent(key), row.value) && !InDir(rows', bucket, Parent(key), row.value);
      assert IsListing(rows, bucket, Parent(key), At(buckets, bucket, Parent(key)).value.entries);
    } else {
      forall b, p | At(buckets, b, p).Some? ensures SameDir(rows, rows', b, p) {
        DeleteElsewhere(rows, bucket, key, b, p);
      }
      ListingsKept(rows, rows', buckets, buckets);
    }
  }

  lemma DeletePrefixKeeps(rows: Rows, items: seq<Item>, buckets: Listings, buckets': Listings, bucket: string,
                          prefix: string)
    requires Coherent(rows, items, buckets)
    requires forall b, p :: At(buckets', b, p) == (if b == bucket then None else At(buckets, b, p))
    ensures Coherent(rows - WithPrefix(rows, bucket, prefix), Filter(items, NotUnder(bucket, prefix)), buckets')
  {
    var rows' := rows - WithPrefix(rows, bucket, prefix);
    forall b, p | At(buckets', b, p).Some?
      ensures At(buckets', b, p) == At(buckets, b, p) && SameDir(rows, rows', b, p)
    {
      PrefixElsewhere(rows, bucket, prefix, b, p);
    }
    ListingsKept(rows, rows', buckets, buckets');
    FilteredNegatives(rows, items, NotUnder(bucket, prefix));
  }

  // ---------------------------------------------------------------- ingesting without clearing

  // A batch adds rows: the negative cache stays right exactly if it held none of their keys.
  lemma BatchAgainstNegatives(rows: Rows, bucket: string, es: seq<Entry>, items: seq<Item>)
    requires NegCoherent(rows, items)
    ensures NegCoherent(PutRows(rows, bucket, es), items) <==> forall e <- es :: !Holds(items, bucket, e.key)
  {
    var rows' := PutRows(rows, bucket, es);
    forall x <- items
      ensures ObjKey(x.bucket, x.key) in rows' <==> x.bucket == bucket && exists e <- es :: e.key == x.key
    {
      PutRowsRow(rows, bucket, es, x.bucket, x.key);
    }
    if NegCoherent(rows', items) {
      forall e <- es ensures !Holds(items, bucket, e.key) {
        forall x <- items ensures !Is(x, bucket, e.key) {
        }
      }
    } else {
      var x :| x in items && ObjKey(x.bucket, x.key) in rows';
      var e :| e in es && e.key == x.key;
      assert Is(x, bucket, e.key);
    }
  }

  // The batch says nothing new about the directory.
  ghost predicate NothingNew(rows: Rows, bucket: string, parent: string, es: seq<Entry>) {
    forall e <- es | e.parent == parent :: LastWith(es, e.key) == Row(rows, bucket, e.key)
  }

  // A cached listing stays right under a batch exactly if the batch says nothing new about it.
  lemma BatchAgainstListing(rows: Rows, bucket: string, es: seq<Entry>, parent: string, listing: seq<Entry>)
    requires RowsWellFormed(rows) && IsListing(rows, bucket, parent, listing)
    requires forall e <- es :: WellFormed(e)
    ensures IsListing(PutRows(rows, bucket, es), bucket, parent, listing) <==> NothingNew(rows, bucket, parent, es)
  {
    var rows' := PutRows(rows, bucket, es);
    SameListing(rows, rows', bucket, parent, listing);
    if NothingNew(rows, bucket, parent, es) {
      forall e ensures InDir(rows, bucket, parent, e) <==> InDir(rows', bucket, parent, e) {
        PutRowsRow(rows, bucket, es, bucket, e.key);
        if e.parent == parent && LastWith(es, e.key).Some? {
          NothingNewAbout(rows, bucket, parent, es, e);
        }
      }
    } else {
      var e :| e in es && e.parent == parent && LastWith(es, e.key) != Row(rows, bucket, e.key);
      var last := LastWith(es, e.key).value;
      PutRowsRow(rows, bucket, es, bucket, e.key);
      assert WellFormed(last) && WellFormed(e);
      assert InDir(rows', bucket, parent, last) && !InDir(rows, bucket, parent, last);
    }
  }

  // Together: a batch of one directory's children, with neither cache cleared.
  ghost predicate BatchHarmless(rows: Rows, items: seq<Item>, buckets: Listings, bucket: string, prefix: string,
                                es: seq<Entry>) {
    && (forall e <- es :: !Holds(items, bucket, e.key))
    && (At(buckets, bucket, prefix).Some? ==> NothingNew(rows, bucket, prefix, es))
  }

  lemma UnclearedBatch(rows: Rows, items: seq<Item>, buckets: Listings, bucket: string, prefix: string,
                       es: seq<Entry>)
    requires Coherent(rows, items, buckets) && forall e <- es :: WellFormed(e) && e.parent == prefix
    ensures Coherent(PutRows(rows, bucket, es), items, buckets) <==>
              BatchHarmless(rows, items, buckets, bucket, prefix, es)
  {
    hide IsListing, WellFormed, NegCoherent, Holds, NothingNew;
    var rows' := PutRows(rows, bucket, es);
    PutRowsWellFormed(rows, bucket, es);
    BatchAgainstNegatives(rows, bucket, es, items);
    forall b, p | At(buckets, b, p).Some?
      ensures IsListing(rows', b, p, At(buckets, b, p).value.entries) <==>
                b != bucket || p != prefix || NothingNew(rows, bucket, prefix, es)
    {
      if b == bucket && p == prefix {
        BatchAgainstListing(rows, bucket, es, prefix, At(buckets, b, p).value.entries);
      } else {
        BatchElsewhere(rows, bucket, es, b, p);
        SameListing(rows, rows', b, p, At(buckets, b, p).value.entries);
      }
    }
  }

  lemma SameListing(rows: Rows, rows': Rows, bucket: string, parent: string, listing: seq<Entry>)
    requires IsListing(rows, bucket, parent, listing)
    ensures IsListing(rows', bucket, parent, listing) <==> SameDir(rows, rows', bucket, parent)
  {
  }

  lemma NothingNewAbout(rows: Rows, bucket: string, parent: string, es: seq<Entry>, e: Entry)
    requires RowsWellFormed(rows) && NothingNew(rows, bucket, parent, es)
    requires forall x <- es :: WellFormed(x)
    requires e.parent == parent && LastWith(es, e.key).Some?
    ensures LastWith(es, e.key) == Some(e) <==> Row(rows, bucket, e.key) == Some(e)
  {
    var last := LastWith(es, e.key).value;
    if last.parent != parent {
      assert WellFormed(last) && Parent(e.key) != parent;
    }
  }
}
