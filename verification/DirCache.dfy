/**
 Listings of directories, kept for a while (internal/catalog/dircache.go).
 */
module DirCache {
  import opened Ids
  import opened Table

  datatype CachedListing = CachedListing(entries: seq<Entry>, expires: int)

  type Listings = map<string, map<string, CachedListing>>

  function At(buckets: Listings, bucket: string, parent: string): Option<CachedListing> {
    if bucket in buckets && parent in buckets[bucket] then Some(buckets[bucket][parent]) else None
  }

  // A listing is good up to and including the moment it expires.
  function Unexpired(l: Option<CachedListing>, now: int): Option<CachedListing> {
    if l.Some? && now <= l.value.expires then l else None
  }

  class DirCache {
    var buckets: Listings
    const ttl: int

    constructor (ttl: int)
      ensures buckets == map[] && this.ttl == ttl
    {
      this.ttl, buckets := ttl, map[];
    }

    method Get(now: int, bucket: string, parent: string) returns (r: Option<seq<Entry>>)
      ensures var l := Unexpired(At(buckets, bucket, parent), now);
        r == if l.Some? then Some(l.value.entries) else None
    {
      if bucket !in buckets {
        return None;
      }
      if parent !in buckets[bucket] || now > buckets[bucket][parent].expires {
        return None;
      }
      r := Some(buckets[bucket][parent].entries);
    }

    method Set(now: int, bucket: string, parent: string, entries: seq<Entry>)
      modifies this
      ensures forall b, p :: At(buckets, b, p) ==
                             (if b == bucket && p == parent then Some(CachedListing(entries, now + ttl))
                              else At(old(buckets), b, p))
    {
      if bucket !in buckets {
        buckets := buckets[bucket := map[]];
      }
      buckets := buckets[bucket := buckets[bucket][parent := CachedListing(entries, now + ttl)]];
    }

    method Invalidate(bucket: string, parent: string)
      modifies this
      ensures forall b, p :: At(buckets, b, p) == (if b == bucket && p == parent then None else At(old(buckets), b, p))
    {
      if bucket in buckets {
        buckets := buckets[bucket := buckets[bucket] - {parent}];
      }
    }

    method InvalidateAll(bucket: string)
      modifies this
      ensures forall b, p :: At(buckets, b, p) == (if b == bucket then None else At(old(buckets), b, p))
    {
      buckets := buckets - {bucket};
    }

    // One tick of the reaper: what has expired goes, and buckets left with nothing.
    method Reap(now: int)
      modifies this
      ensures forall b, p :: At(buckets, b, p) == Unexpired(At(old(buckets), b, p), now)
      ensures forall b <- buckets :: buckets[b] != map[]
    {
      var left := buckets.Keys;
      while left != {}
        invariant left <= buckets.Keys <= old(buckets).Keys
        invariant forall b <- left :: buckets[b] == old(buckets)[b]
        invariant forall b, p {:trigger At(buckets, b, p)} ::
          b !in left ==> At(buckets, b, p) == Unexpired(At(old(buckets), b, p), now)
        invariant forall b <- buckets :: b !in left ==> buckets[b] != map[]
        decreases |left|
      {
        var bucket :| bucket in left;
        var kept := ReapBucket(buckets[bucket], now);
        ghost var before := buckets;
        buckets := if kept == map[] then buckets - {bucket} else buckets[bucket := kept];
        left := left - {bucket};
        forall b, p | b !in left ensures At(buckets, b, p) == Unexpired(At(old(buckets), b, p), now) {
          if b != bucket {
            assert At(buckets, b, p) == At(before, b, p);
          } else {
            assert p in kept <==> p in before[b] && now <= before[b][p].expires;
          }
        }
      }
    }
  }

  method ReapBucket(b: map<string, CachedListing>, now: int) returns (kept: map<string, CachedListing>)
    ensures kept == map p <- b | now <= b[p].expires :: b[p]
  {
    kept := b;
    var left := b.Keys;
    while left != {}
      invariant left <= kept.Keys
      invariant kept == map p <- b | p in left || now <= b[p].expires :: b[p]
      decreases |left|
    {
      var k :| k in left;
      if now > kept[k].expires {
        kept := kept - {k};
      }
      left := left - {k};
    }
  }
}
