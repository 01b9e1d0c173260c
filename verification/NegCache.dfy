/**
 The negative cache (internal/catalog/negcache.go): keys known to be absent, in a nested map for
 lookup and in a list for age (container/list, whose contents are a sequence here), bounded in
 number and in time.
 */

// What the cache means: absent keys with their expiry, least recently added first.
module NegModel {

  datatype Item = Item(bucket: string, key: string, expires: int)

  predicate Is(x: Item, bucket: string, key: string) {
    x.bucket == bucket && x.key == key
  }

  function Filter(m: seq<Item>, keep: Item -> bool): (r: seq<Item>)
    ensures |r| <= |m|
  {
    if m == [] then []
    else
      var rest := Filter(m[..|m| - 1], keep);
      if keep(m[|m| - 1]) then rest + [m[|m| - 1]] else rest
  }

  lemma {:induction false} FilterMember(m: seq<Item>, keep: Item -> bool, x: Item)
    ensures x in Filter(m, keep) <==> x in m && keep(x)
  {
    if m == [] {
    } else {
      FilterMember(m[..|m| - 1], keep, x);
      assert m == m[..|m| - 1] + [m[|m| - 1]];
    }
  }

  function NotKey(bucket: string, key: string): Item -> bool {
    x => !Is(x, bucket, key)
  }

  function LiveAt(now: int): Item -> bool {
    (x: Item) => now < x.expires
  }

  function NotUnder(bucket: string, prefix: string): Item -> bool {
    (x: Item) => !(x.bucket == bucket && prefix <= x.key)
  }

  // Those under the prefix and no longer on the list of keys to visit are gone.
  function NotDone(bucket: string, prefix: string, todo: set<string>): Item -> bool {
    (x: Item) => !(x.bucket == bucket && prefix <= x.key && x.key !in todo)
  }

  function Without(m: seq<Item>, bucket: string, key: string): seq<Item> {
    Filter(m, NotKey(bucket, key))
  }

  // Refreshed or appended at the end; if that is one too many, the oldest go.
  function Added(m: seq<Item>, bucket: string, key: string, expires: int, maxSize: nat): seq<Item> {
    var m' := Without(m, bucket, key) + [Item(bucket, key, expires)];
    if |m'| > maxSize then m'[|m'| - maxSize..] else m'
  }

  function Live(m: seq<Item>, now: int): seq<Item> {
    Filter(m, LiveAt(now))
  }

  predicate Holds(m: seq<Item>, bucket: string, key: string) {
    exists x <- m :: Is(x, bucket, key)
  }

  // No key twice.
  predicate Distinct(m: seq<Item>) {
    forall i, j :: 0 <= i < j < |m| ==> !Is(m[j], m[i].bucket, m[i].key)
  }

  predicate Aged(m: seq<Item>) {
    forall i, j :: 0 <= i < j < |m| ==> m[i].expires <= m[j].expires
  }

  // One item per key, in order of expiry, none beyond the limit.
  predicate WellAged(m: seq<Item>, limit: int) {
    Distinct(m) && Aged(m) && forall i :: 0 <= i < |m| ==> m[i].expires <= limit
  }

  lemma {:induction false} FilterAll(m: seq<Item>, keep: Item -> bool)
    requires forall x <- m :: keep(x)
    ensures Filter(m, keep) == m
  {
    if m == [] {
    } else {
      FilterAll(m[..|m| - 1], keep);
    }
  }

  lemma {:induction false} FilterConcat(a: seq<Item>, b: seq<Item>, keep: Item -> bool)
    ensures Filter(a + b, keep) == Filter(a, keep) + Filter(b, keep)
  {
    if b == [] {
      assert a + b == a;
    } else {
      FilterConcat(a, b[..|b| - 1], keep);
      assert (a + b)[..|a + b| - 1] == a + b[..|b| - 1];
    }
  }

  lemma {:induction false} FilterNone(m: seq<Item>, keep: Item -> bool)
    requires forall x <- m :: !keep(x)
    ensures Filter(m, keep) == []
  {
    if m == [] {
    } else {
      FilterNone(m[..|m| - 1], keep);
    }
  }

  lemma WithoutSplit(before: seq<Item>, e: Item, after: seq<Item>)
    requires forall x <- before :: !Is(x, e.bucket, e.key)
    requires forall x <- after :: !Is(x, e.bucket, e.key)
    ensures Without(before + ([e] + after), e.bucket, e.key) == before + after
  {
    var keep := NotKey(e.bucket, e.key);
    FilterConcat(before, [e] + after, keep);
    FilterConcat([e], after, keep);
    FilterNone([e], keep);
    FilterAll(before, keep);
    FilterAll(after, keep);
  }

  // The sequence without position i.
  function Cut<T>(m: seq<T>, i: nat): (r: seq<T>)
    requires i < |m|
    ensures |r| == |m| - 1
    ensures forall j {:trigger r[j]} :: 0 <= j < |r| ==> r[j] == m[if j < i then j else j + 1]
  {
    m[..i] + m[i + 1..]
  }

  // Unlinking the one item of a key is the model's Without.
  lemma CutIsWithout(m: seq<Item>, i: nat)
    requires i < |m| && Distinct(m)
    ensures Cut(m, i) == Without(m, m[i].bucket, m[i].key)
  {
    assert m == m[..i] + ([m[i]] + m[i + 1..]);
    WithoutSplit(m[..i], m[i], m[i + 1..]);
  }

  lemma CutKeeps(m: seq<Item>, i: nat, limit: int)
    requires i < |m| && WellAged(m, limit)
    ensures WellAged(Cut(m, i), limit)
  {
  }

  lemma CutIsWithoutAged(m: seq<Item>, i: nat, limit: int)
    requires i < |m| && WellAged(m, limit)
    ensures Cut(m, i) == Without(m, m[i].bucket, m[i].key) && WellAged(Cut(m, i), limit)
  {
    CutIsWithout(m, i);
    CutKeeps(m, i, limit);
  }

  lemma RefreshedItems(m: seq<Item>, i: nat, limit: int)
    requires i < |m| && WellAged(m, limit)
    ensures Cut(m, i) == Without(m, m[i].bucket, m[i].key)
    ensures WellAged(Cut(m, i) + [Item(m[i].bucket, m[i].key, limit)], limit)
  {
    CutIsWithoutAged(m, i, limit);
    FilterGone(m, m[i].bucket, m[i].key);
    AppendKeeps(Cut(m, i), Item(m[i].bucket, m[i].key, limit), limit);
  }

  lemma LiveLookup(m: seq<Item>, i: nat, limit: int, now: int)
    requires i < |m| && WellAged(m, limit)
    ensures Holds(Live(m, now), m[i].bucket, m[i].key) <==> now < m[i].expires
  {
    FilterMember(m, LiveAt(now), m[i]);
    forall x | x in Live(m, now) && Is(x, m[i].bucket, m[i].key) ensures now < m[i].expires {
      FilterMember(m, LiveAt(now), x);
      var j :| 0 <= j < |m| && m[j] == x;
    }
  }

  lemma LiveAbsent(m: seq<Item>, bucket: string, key: string, now: int)
    requires !Holds(m, bucket, key)
    ensures !Holds(Live(m, now), bucket, key)
  {
    forall x | x in Live(m, now) ensures !Is(x, bucket, key) {
      FilterMember(m, LiveAt(now), x);
    }
  }

  lemma AppendKeeps(m: seq<Item>, e: Item, limit: int)
    requires WellAged(m, limit) && !Holds(m, e.bucket, e.key) && e.expires == limit
    ensures WellAged(m + [e], limit)
  {
    var r := m + [e];
    assert forall j :: 0 <= j < |m| ==> r[j] == m[j] && m[j] in m;
  }

  lemma WithoutAbsent(m: seq<Item>, bucket: string, key: string)
    requires !Holds(m, bucket, key)
    ensures Without(m, bucket, key) == m
  {
    FilterAll(m, NotKey(bucket, key));
  }

  lemma FilterGone(m: seq<Item>, bucket: string, key: string)
    ensures !Holds(Without(m, bucket, key), bucket, key)
  {
    forall x | x in Without(m, bucket, key) ensures !Is(x, bucket, key) {
      FilterMember(m, NotKey(bucket, key), x);
    }
  }

  lemma {:induction false} FilterTwice(m: seq<Item>, p: Item -> bool, q: Item -> bool, r: Item -> bool)
    requires forall x <- m :: r(x) <==> p(x) && q(x)
    ensures Filter(Filter(m, p), q) == Filter(m, r)
  {
    if m == [] {
    } else {
      var m', x := m[..|m| - 1], m[|m| - 1];
      FilterTwice(m', p, q, r);
      if p(x) {
        FilterConcat(Filter(m', p), [x], q);
      }
    }
  }

  lemma {:induction false} FilterAgree(m: seq<Item>, p: Item -> bool, q: Item -> bool)
    requires forall x <- m :: p(x) == q(x)
    ensures Filter(m, p) == Filter(m, q)
  {
    if m == [] {
    } else {
      FilterAgree(m[..|m| - 1], p, q);
    }
  }

  // Where expiry never decreases, the expired items are a prefix: dropping from the front up to
  // the first live one drops exactly them.
  lemma AgedPrefix(m: seq<Item>, n: nat, limit: int, now: int)
    requires n <= |m| && WellAged(m, limit)
    requires forall i :: 0 <= i < n ==> m[i].expires <= now
    requires n < |m| ==> now < m[n].expires
    ensures m[n..] == Live(m, now)
  {
    var live := LiveAt(now);
    assert m == m[..n] + m[n..];
    FilterConcat(m[..n], m[n..], live);
    FilterNone(m[..n], live);
    FilterAll(m[n..], live);
  }
}

module NegCache {
  import opened NegModel

  class NegEntry {
    const bucket: string
    const key: string
    var expires: int

    constructor (bucket: string, key: string, expires: int)
      ensures this.bucket == bucket && this.key == key && this.expires == expires
    {
      this.bucket, this.key, this.expires := bucket, key, expires;
    }
  }

  type Buckets = map<string, map<string, NegEntry>>

  // The list and the nested map hold the same entries, each once, and no inner map is empty.
  ghost predicate Indexed(buckets: Buckets, lru: seq<NegEntry>) {
    && EachOnce(lru)
    && (forall n <- lru :: n.bucket in buckets && n.key in buckets[n.bucket] && buckets[n.bucket][n.key] == n)
    && (forall b <- buckets :: buckets[b] != map[])
    && (forall b, k :: b in buckets && k in buckets[b] ==>
          buckets[b][k] in lru && buckets[b][k].bucket == b && buckets[b][k].key == k)
  }

  ghost predicate EachOnce(lru: seq<NegEntry>) {
    forall j, k :: 0 <= j < k < |lru| ==> lru[j] != lru[k]
  }

  function Dropped(buckets: Buckets, bucket: string, key: string): Buckets
    requires bucket in buckets
  {
    var b := buckets[bucket] - {key};
    if b == map[] then buckets - {bucket} else buckets[bucket := b]
  }

  lemma DroppedOthers(buckets: Buckets, bucket: string, key: string, keys: set<string>)
    requires bucket in buckets && keys <= buckets[bucket].Keys
    ensures forall k <- keys - {key} ::
      bucket in Dropped(buckets, bucket, key) && k in Dropped(buckets, bucket, key)[bucket]
  {
    forall k <- keys - {key} ensures k in buckets[bucket] - {key} {
    }
  }

  function Inserted(buckets: Buckets, e: NegEntry): Buckets {
    var b: map<string, NegEntry> := if e.bucket in buckets then buckets[e.bucket] else map[];
    buckets[e.bucket := b[e.key := e]]
  }

  lemma InCut(lru: seq<NegEntry>, i: nat, n: NegEntry)
    requires i < |lru| && EachOnce(lru)
    ensures n in Cut(lru, i) <==> n in lru && n != lru[i]
  {
    var cut := Cut(lru, i);
    if n in lru && n != lru[i] {
      var j :| 0 <= j < |lru| && lru[j] == n;
      assert n == cut[if j < i then j else j - 1];
    }
    if n in cut {
      var j :| 0 <= j < |cut| && cut[j] == n;
      assert n == lru[if j < i then j else j + 1];
    }
  }

  lemma IndexedDropped(buckets: Buckets, lru: seq<NegEntry>, i: nat)
    requires Indexed(buckets, lru) && i < |lru|
    ensures lru[i].bucket in buckets && Indexed(Dropped(buckets, lru[i].bucket, lru[i].key), Cut(lru, i))
  {
    forall n ensures n in Cut(lru, i) <==> n in lru && n != lru[i] {
      InCut(lru, i, n);
    }
    IndexedRest(buckets, lru, lru[i], Cut(lru, i));
  }

  lemma IndexedRest(buckets: Buckets, lru: seq<NegEntry>, e: NegEntry, rest: seq<NegEntry>)
    requires Indexed(buckets, lru) && e in lru && EachOnce(rest)
    requires forall n :: n in rest <==> n in lru && n != e
    ensures e.bucket in buckets && Indexed(Dropped(buckets, e.bucket, e.key), rest)
  {
    var after := Dropped(buckets, e.bucket, e.key);
    forall n <- rest ensures n.bucket in after && n.key in after[n.bucket] && after[n.bucket][n.key] == n {
      if n.bucket == e.bucket {
        assert n.key in buckets[e.bucket] - {e.key};
      }
    }
  }

  lemma IndexedMoved(buckets: Buckets, lru: seq<NegEntry>, i: nat)
    requires Indexed(buckets, lru) && i < |lru|
    ensures Indexed(buckets, Cut(lru, i) + [lru[i]])
    ensures lru[i] !in Cut(lru, i)
  {
    var moved := Cut(lru, i) + [lru[i]];
    forall n ensures n in moved <==> n in lru {
      InCut(lru, i, n);
    }
    InCut(lru, i, lru[i]);
    assert EachOnce(Cut(lru, i));
  }

  // An entry sits at one place only.
  lemma OnePlace(buckets: Buckets, lru: seq<NegEntry>, i: nat)
    requires Indexed(buckets, lru) && i < |lru|
    ensures lru[i] == lru[0] ==> i == 0 && Cut(lru, i) == lru[1..]
  {
  }

  lemma IndexedAdded(buckets: Buckets, lru: seq<NegEntry>, e: NegEntry)
    requires Indexed(buckets, lru) && (e.bucket in buckets ==> e.key !in buckets[e.bucket])
    ensures Indexed(Inserted(buckets, e), lru + [e])
  {
  }

  // Apart from expiry times, which entries carry themselves: the items are those of the entries,
  // and they are in order of expiry.
  ghost predicate Sound(buckets: Buckets, lru: seq<NegEntry>, items: seq<Item>, limit: int) {
    && Indexed(buckets, lru)
    && |items| == |lru|
    && (forall i :: 0 <= i < |lru| ==> Is(items[i], lru[i].bucket, lru[i].key))
    && WellAged(items, limit)
  }

  lemma SoundItems(buckets: Buckets, lru: seq<NegEntry>, items: seq<Item>, limit: int)
    requires Sound(buckets, lru, items, limit)
    ensures WellAged(items, limit)
  {
  }

  lemma SoundRemoved(buckets: Buckets, lru: seq<NegEntry>, items: seq<Item>, limit: int, i: nat)
    requires Sound(buckets, lru, items, limit) && i < |lru|
    ensures |items| == |lru| && lru[i].bucket in buckets
    ensures Cut(items, i) == Without(items, lru[i].bucket, lru[i].key)
    ensures Sound(Dropped(buckets, lru[i].bucket, lru[i].key), Cut(lru, i), Cut(items, i), limit)
    ensures lru[i] == lru[0] ==> Cut(lru, i) == lru[1..] && Cut(items, i) == items[1..]
  {
    CutIsWithoutAged(items, i, limit);
    IndexedDropped(buckets, lru, i);
    OnePlace(buckets, lru, i);
  }

  lemma SoundRefreshed(buckets: Buckets, lru: seq<NegEntry>, items: seq<Item>, limit: int, i: nat)
    requires Sound(buckets, lru, items, limit) && i < |lru|
    ensures |items| == |lru| && lru[i] !in Cut(lru, i)
    ensures Cut(items, i) == Without(items, lru[i].bucket, lru[i].key)
    ensures Sound(buckets, Cut(lru, i) + [lru[i]], Cut(items, i) + [Item(lru[i].bucket, lru[i].key, limit)], limit)
  {
    hide Indexed, WellAged, Distinct, Aged, EachOnce, Filter;
    RefreshedItems(items, i, limit);
    IndexedMoved(buckets, lru, i);
  }

  lemma SoundAdded(buckets: Buckets, lru: seq<NegEntry>, items: seq<Item>, limit: int, e: NegEntry)
    requires Sound(buckets, lru, items, limit) && !Holds(items, e.bucket, e.key)
    requires e.bucket in buckets ==> e.key !in buckets[e.bucket]
    ensures |items| == |lru|
    ensures Sound(Inserted(buckets, e), lru + [e], items + [Item(e.bucket, e.key, limit)], limit)
  {
    IndexedAdded(buckets, lru, e);
    AppendKeeps(items, Item(e.bucket, e.key, limit), limit);
  }

  class NegCache {
    var buckets: Buckets
    var lru: seq<NegEntry>         // front = oldest, back = newest
    const ttl: int
    const maxSize: nat
    ghost var items: seq<Item>  // what the entries say
    ghost var clock: int        // the latest time seen

    ghost predicate Consistent()
      reads this, lru
    {
      && Sound(buckets, lru, items, clock + ttl)
      && |items| == |lru|
      && (forall i :: 0 <= i < |lru| ==> items[i].expires == lru[i].expires)
    }

    ghost predicate Valid()
      reads this, lru
    {
      Consistent() && |items| <= maxSize
    }

    constructor (ttl: int, maxSize: nat, now: int)
      ensures Valid() && items == [] && lru == [] && this.ttl == ttl && this.maxSize == maxSize && clock == now
    {
      this.ttl, this.maxSize := ttl, maxSize;
      buckets, lru := map[], [];
      items, clock := [], now;
    }

    // Which keys the map finds is which keys the model holds.
    lemma MapIsModel(bucket: string, key: string) returns (i: int)
      requires Consistent()
      ensures Holds(items, bucket, key) <==> bucket in buckets && key in buckets[bucket]
      ensures Holds(items, bucket, key) ==>
                && 0 <= i < |lru| && lru[i] == buckets[bucket][key]
                && lru[i].bucket == bucket && lru[i].key == key && lru[i].expires == items[i].expires
                && Is(items[i], bucket, key)
    {
      i := -1;
      if bucket in buckets && key in buckets[bucket] {
        i :| 0 <= i < |lru| && lru[i] == buckets[bucket][key];
        assert items[i] in items;
      } else {
        forall x <- items ensures !Is(x, bucket, key) {
          var j :| 0 <= j < |items| && items[j] == x;
          assert lru[j] in lru;
        }
      }
    }

    method SetClock(now: int)
      requires Valid() && clock <= now
      modifies this`clock
      ensures Valid() && clock == now
    {
      clock := now;
    }

    method RemoveLocked(e: NegEntry)
      requires Consistent() && e in lru
      modifies this`buckets, this`lru, this`items
      ensures Consistent() && |lru| < |old(lru)|
      ensures forall n <- lru :: n in old(lru)
      ensures buckets == Dropped(old(buckets), e.bucket, e.key)
      ensures items == Without(old(items), e.bucket, e.key)
      ensures e == old(lru)[0] ==> lru == old(lru)[1..] && items == old(items)[1..]
    {
      hide Sound, Filter;
      var i: nat :| i < |lru| && lru[i] == e;
      SoundRemoved(buckets, lru, items, clock + ttl, i);
      lru := Cut(lru, i);
      items := Cut(items, i);
      buckets := Dropped(buckets, e.bucket, e.key);
    }

    // Only keys added less than a TTL ago count; an expired one is dropped on the way.
    method Contains(now: int, bucket: string, key: string) returns (r: bool)
      requires Valid() && clock <= now
      modifies this
      ensures Valid() && clock == now
      ensures forall n <- lru :: n in old(lru)
      ensures r <==> Holds(Live(old(items), now), bucket, key)
      ensures items == if r then old(items) else Without(old(items), bucket, key)
    {
      hide Sound, Filter;
      ghost var i := MapIsModel(bucket, key);
      SetClock(now);
      r := false;
      if bucket in buckets && key in buckets[bucket] {
        var e := buckets[bucket][key];
        SoundItems(buckets, lru, items, clock + ttl);
        LiveLookup(items, i, clock + ttl, now);
        r := now < e.expires;
        if !r {
          RemoveLocked(e);
        }
      } else {
        WithoutAbsent(items, bucket, key);
        LiveAbsent(items, bucket, key, now);
      }
    }

    method Add(now: int, bucket: string, key: string)
      requires Valid() && clock <= now
      modifies this, lru
      ensures Valid() && clock == now
      ensures forall n <- lru :: n in old(lru) || fresh(n)
      ensures items == Added(old(items), bucket, key, now + ttl, maxSize)
    {
      hide Sound, Filter;
      ghost var i := MapIsModel(bucket, key);
      SetClock(now);
      if bucket in buckets && key in buckets[bucket] {
        Refresh(now, buckets[bucket][key]);
      } else {
        WithoutAbsent(items, bucket, key);
        Append(now, bucket, key);
        TrimToSize();
      }
    }

    // An entry that is already there gets a new expiry and moves to the back.
    method Refresh(now: int, e: NegEntry)
      requires Consistent() && e in lru && clock == now
      modifies this`lru, this`items, e
      ensures Consistent() && |items| == |old(items)|
      ensures forall n <- lru :: n in old(lru)
      ensures items == Without(old(items), e.bucket, e.key) + [Item(e.bucket, e.key, now + ttl)]
    {
      hide Sound, Filter;
      var i: nat :| i < |lru| && lru[i] == e;
      SoundRefreshed(buckets, lru, items, clock + ttl, i);
      ghost var rest := Cut(lru, i);
      e.expires := now + ttl;
      lru := Cut(lru, i) + [e];
      items := Cut(items, i) + [Item(e.bucket, e.key, now + ttl)];
      assert forall j :: 0 <= j < |rest| ==> lru[j] == rest[j] && rest[j] in rest;
    }

    method Append(now: int, bucket: string, key: string)
      requires Consistent() && !Holds(items, bucket, key) && clock == now
      modifies this`buckets, this`lru, this`items
      ensures Consistent()
      ensures forall n <- lru :: n in old(lru) || fresh(n)
      ensures items == old(items) + [Item(bucket, key, now + ttl)]
    {
      hide Sound, Filter;
      ghost var i := MapIsModel(bucket, key);
      var e := new NegEntry(bucket, key, now + ttl);
      SoundAdded(buckets, lru, items, clock + ttl, e);
      lru := lru + [e];
      items := items + [Item(bucket, key, now + ttl)];
      buckets := Inserted(buckets, e);
    }

    // The oldest go until the size is within bounds.
    method TrimToSize()
      requires Consistent()
      modifies this`buckets, this`lru, this`items
      ensures Valid()
      ensures forall n <- lru :: n in old(lru)
      ensures items == if |old(items)| > maxSize then old(items)[|old(items)| - maxSize..] else old(items)
    {
      hide Sound, Filter;
      while |lru| > maxSize
        invariant Consistent()
        invariant |lru| <= |old(items)| && (|lru| >= maxSize || |lru| == |old(items)|)
        invariant items == old(items)[|old(items)| - |lru|..]
        invariant forall n <- lru :: n in old(lru)
      {
        RemoveLocked(lru[0]);
      }
    }

    method Remove(bucket: string, key: string)
      requires Valid()
      modifies this
      ensures Valid() && clock == old(clock)
      ensures forall n <- lru :: n in old(lru)
      ensures items == Without(old(items), bucket, key)
    {
      hide Sound, Filter;
      ghost var i := MapIsModel(bucket, key);
      if bucket in buckets && key in buckets[bucket] {
        RemoveLocked(buckets[bucket][key]);
      } else {
        WithoutAbsent(items, bucket, key);
      }
    }

    // A range over the inner map, deleting on the way, in whatever order the map yields its keys.
    method RemovePrefix(bucket: string, prefix: string)
      requires Valid()
      modifies this
      ensures Valid() && clock == old(clock)
      ensures forall n <- lru :: n in old(lru)
      ensures items == Filter(old(items), NotUnder(bucket, prefix))
    {
      hide Sound, Filter;
      ghost var was := items;
      var todo := if bucket in buckets then buckets[bucket].Keys else {};
      forall x <- was | x.bucket == bucket ensures x.key in todo {
        assert Is(x, bucket, x.key);
        var _ := MapIsModel(bucket, x.key);
      }
      FilterAll(was, NotDone(bucket, prefix, todo));
      while todo != {}
        invariant Valid() && clock == old(clock)
        invariant forall k <- todo :: bucket in buckets && k in buckets[bucket]
        invariant items == Filter(was, NotDone(bucket, prefix, todo))
        invariant forall n <- lru :: n in old(lru)
        decreases |todo|
      {
        var k :| k in todo;
        if prefix <= k {
          FilterTwice(was, NotDone(bucket, prefix, todo), NotKey(bucket, k), NotDone(bucket, prefix, todo - {k}));
          ghost var _ := MapIsModel(bucket, k);
          DroppedOthers(buckets, bucket, k, todo);
          RemoveLocked(buckets[bucket][k]);
        } else {
          FilterAgree(was, NotDone(bucket, prefix, todo), NotDone(bucket, prefix, todo - {k}));
        }
        todo := todo - {k};
      }
      FilterAgree(was, NotDone(bucket, prefix, todo), NotUnder(bucket, prefix));
    }

    // One tick of the reaper: from the oldest on, up to the first entry that is still valid.
    method Reap(now: int)
      requires Valid() && clock <= now
      modifies this
      ensures Valid() && clock == now
      ensures forall n <- lru :: n in old(lru)
      ensures items == Live(old(items), now)
    {
      hide Sound, Filter;
      ghost var was, gone: nat := items, 0;
      SoundItems(buckets, lru, items, clock + ttl);
      SetClock(now);
      while lru != [] && lru[0].expires <= now
        invariant Valid() && clock == now && gone <= |was|
        invariant items == was[gone..]
        invariant forall i :: 0 <= i < gone ==> was[i].expires <= now
        invariant forall n <- lru :: n in old(lru)
        decreases |lru|
      {
        assert items[0] == was[gone];
        RemoveLocked(lru[0]);
        gone := gone + 1;
      }
      assert gone < |was| ==> items[0] == was[gone];
      AgedPrefix(was, gone, old(clock) + ttl, now);
    }
  }
}
