/**
 The catalog's steps interleaved: a lookup or listing reads the table in one step and fills a
 cache in a later one, and in between anyone may change the table or clear the caches
 (internal/catalog/catalog.go, the background sync of internal/catalog/sync.go). The caches can
 then disagree with the table, but never for longer than a TTL plus the time a fill took.
 */
module Staleness {
  import opened Ids
  import opened Table
  import opened Coherence

  // The table has these rows from this moment until the next version.
  datatype TableVersion = TableVersion(since: int, rows: Rows)

  // What was read: of which version, and when.
  datatype Sight = Sight(version: nat, read: int)

  // A cached answer: what it rests on, and when it went into the cache.
  datatype Kept<T> = Kept(answer: T, sight: Sight, filled: int)

  datatype Dir = Dir(bucket: string, parent: string)

  // Between its read and its fill, a call holds what it read.
  datatype Call = LookingUp(id: ObjKey, sight: Sight) | ListingDir(dir: Dir, entries: seq<Entry>, sight: Sight)

  datatype State = State(
    now: int,
    versions: seq<TableVersion>,
    calls: map<nat, Call>,
    negative: map<ObjKey, Kept<()>>,
    listings: map<Dir, Kept<seq<Entry>>>)

  datatype Step =
    | Tick(now: int)
    | Change(rows: Rows)                             // any write: Put, Delete, a sync's batch
    | ReadRow(call: nat, id: ObjKey)                 // Lookup found no row (catalog.go:107)
    | ReadDir(call: nat, dir: Dir, es: seq<Entry>)   // ListDir's query (catalog.go:74)
    | Fill(call: nat)                                // negCache.Add or dirCache.Set
    | Forget(ids: set<ObjKey>, dirs: set<Dir>)       // Remove, Invalidate, a reaper, eviction

  function Latest(s: State): TableVersion
    requires s.versions != []
  {
    s.versions[|s.versions| - 1]
  }

  ghost predicate Enabled(s: State, e: Step)
    requires s.versions != []
  {
    match e
    case Tick(now) => s.now <= now
    case Change(_) => true
    case ReadRow(c, id) => c !in s.calls && id !in Latest(s).rows
    case ReadDir(c, d, es) => c !in s.calls && IsListing(Latest(s).rows, d.bucket, d.parent, es)
    case Fill(c) => c in s.calls
    case Forget(_, _) => true
  }

  ghost function Next(s: State, e: Step): State
    requires s.versions != [] && Enabled(s, e)
  {
    var sight := Sight(|s.versions| - 1, s.now);
    match e
    case Tick(now) => s.(now := now)
    case Change(rows) => s.(versions := s.versions + [TableVersion(s.now, rows)])
    case ReadRow(c, id) => s.(calls := s.calls[c := LookingUp(id, sight)])
    case ReadDir(c, d, es) => s.(calls := s.calls[c := ListingDir(d, es, sight)])
    case Fill(c) => (match s.calls[c]
      case LookingUp(id, r) => s.(calls := s.calls - {c}, negative := s.negative[id := Kept((), r, s.now)])
      case ListingDir(d, es, r) => s.(calls := s.calls - {c}, listings := s.listings[d := Kept(es, r, s.now)]))
    case Forget(ids, dirs) => s.(negative := s.negative - ids, listings := s.listings - dirs)
  }

  ghost predicate Run(ss: seq<State>, es: seq<Step>) {
    && |ss| == |es| + 1
    && |ss[0].versions| == 1 && ss[0].versions[0].since <= ss[0].now
    && ss[0].calls == map[] && ss[0].negative == map[] && ss[0].listings == map[]
    && (forall i :: 0 <= i < |ss| ==> ss[i].versions != [])
    && forall i :: 0 <= i < |es| ==> Enabled(ss[i], es[i]) && ss[i + 1] == Next(ss[i], es[i])
  }

  // TableVersion i was the table's at moment t.
  predicate Current(versions: seq<TableVersion>, i: nat, t: int) {
    i < |versions| && versions[i].since <= t && (i + 1 < |versions| ==> t <= versions[i + 1].since)
  }

  // ---------------------------------------------------------------- invariant

  predicate SightTrue(s: State, r: Sight) {
    Current(s.versions, r.version, r.read) && r.read <= s.now
  }

  ghost predicate CallInv(s: State, c: Call) {
    && SightTrue(s, c.sight)
    && match c
       case LookingUp(id, r) => id !in s.versions[r.version].rows
       case ListingDir(d, es, r) => IsListing(s.versions[r.version].rows, d.bucket, d.parent, es)
  }

  ghost predicate Inv(s: State) {
    && s.versions != [] && (forall i :: 0 <= i < |s.versions| ==> s.versions[i].since <= s.now)
    && (forall c <- s.calls :: CallInv(s, s.calls[c]))
    && (forall id <- s.negative ::
          && CallInv(s, LookingUp(id, s.negative[id].sight))
          && s.negative[id].sight.read <= s.negative[id].filled <= s.now)
    && (forall d <- s.listings :: CallInv(s, ListingDir(d, s.listings[d].answer, s.listings[d].sight))
                               && s.listings[d].sight.read <= s.listings[d].filled <= s.now)
  }

  lemma SeenStays(s: State, e: Step, c: Call)
    requires Inv(s) && Enabled(s, e) && CallInv(s, c)
    ensures CallInv(Next(s, e), c)
  {
  }

  lemma NextKeepsInv(s: State, e: Step)
    requires Inv(s) && Enabled(s, e)
    ensures Inv(Next(s, e))
  {
    hide CallInv, IsListing;
    var s' := Next(s, e);
    forall c: Call | CallInv(s, c) ensures CallInv(s', c) {
      SeenStays(s, e, c);
    }
    ReadIsSeen(s, e);
  }

  // What a read step notes down is true of it.
  lemma ReadIsSeen(s: State, e: Step)
    requires Inv(s) && Enabled(s, e)
    ensures e.ReadRow? || e.ReadDir? ==> CallInv(Next(s, e), Next(s, e).calls[e.call])
    ensures e.Fill? ==> s.calls[e.call].sight.read <= s.now
  {
  }

  lemma {:induction false} RunKeepsInv(ss: seq<State>, es: seq<Step>, k: nat)
    requires Run(ss, es) && k < |ss|
    ensures Inv(ss[k])
  {
    if k == 0 {
    } else {
      RunKeepsInv(ss, es, k - 1);
      NextKeepsInv(ss[k - 1], es[k - 1]);
    }
  }

  // ---------------------------------------------------------------- how stale an answer can be

  predicate NegativeServed(s: State, ttl: int, id: ObjKey) {
    id in s.negative && s.now < s.negative[id].filled + ttl
  }

  predicate ListingServed(s: State, ttl: int, d: Dir) {
    d in s.listings && s.now <= s.listings[d].filled + ttl
  }

  // The table had this answer at a moment not longer ago than this.
  ghost predicate TrueWithin(s: State, age: int, answer: Rows -> bool) {
    exists i: nat, t :: Current(s.versions, i, t) && s.now - age <= t <= s.now && answer(s.versions[i].rows)
  }

  function Absent(id: ObjKey): Rows -> bool {
    (rows: Rows) => id !in rows
  }

  ghost function Lists(d: Dir, es: seq<Entry>): Rows -> bool {
    (rows: Rows) => IsListing(rows, d.bucket, d.parent, es)
  }

  // A key answered as absent was absent within the TTL plus the time its fill took, and so was
  // the listing answered the directory's, over every interleaving.
  lemma BoundedStaleness(ss: seq<State>, es: seq<Step>, k: nat, ttl: int)
    requires Run(ss, es) && k < |ss|
    ensures forall id :: NegativeServed(ss[k], ttl, id) ==>
              TrueWithin(ss[k], ttl - 1 + (ss[k].negative[id].filled - ss[k].negative[id].sight.read), Absent(id))
    ensures forall d :: ListingServed(ss[k], ttl, d) ==>
              TrueWithin(ss[k], ttl + (ss[k].listings[d].filled - ss[k].listings[d].sight.read),
                         Lists(d, ss[k].listings[d].answer))
  {
    RunKeepsInv(ss, es, k);
    var s := ss[k];
    forall id | NegativeServed(s, ttl, id)
      ensures TrueWithin(s, ttl - 1 + (s.negative[id].filled - s.negative[id].sight.read), Absent(id))
    {
      var r := s.negative[id].sight;
      assert CallInv(s, LookingUp(id, r));
      assert Current(s.versions, r.version, r.read) && Absent(id)(s.versions[r.version].rows);
    }
    forall d | ListingServed(s, ttl, d)
      ensures TrueWithin(s, ttl + (s.listings[d].filled - s.listings[d].sight.read), Lists(d, s.listings[d].answer))
    {
      var r := s.listings[d].sight;
      assert CallInv(s, ListingDir(d, s.listings[d].answer, r));
      assert Current(s.versions, r.version, r.read) && Lists(d, s.listings[d].answer)(s.versions[r.version].rows);
    }
  }

  // The bound is needed: a fill that is overtaken by a write and its invalidation leaves the
  // cache wrong, until the TTL ends it.
  lemma FillOvertaken(rows: Rows, id: ObjKey, e: Entry, now: int) returns (ss: seq<State>, es: seq<Step>)
    requires id !in rows && e.key == id.key
    ensures Run(ss, es)
    ensures var end := ss[|es|];
      end.versions != [] && id in Latest(end).rows && forall ttl :: ttl > 0 ==> NegativeServed(end, ttl, id)
  {
    var s0 := State(now, [TableVersion(now, rows)], map[], map[], map[]);
    var put := Change(rows[id := e]);
    var s1 := Next(s0, ReadRow(0, id));
    var s2 := Next(s1, put);
    var s3 := Next(s2, Forget({id}, {}));
    var s4 := Next(s3, Fill(0));
    ss, es := [s0, s1, s2, s3, s4], [ReadRow(0, id), put, Forget({id}, {}), Fill(0)];
  }

  // And so a listing: a row put between its read and its fill is missing in it, to the end of the TTL.
  lemma ListingOvertaken(rows: Rows, d: Dir, entries: seq<Entry>, e: Entry, now: int, ttl: nat)
    returns (ss: seq<State>, es: seq<Step>)
    requires IsListing(rows, d.bucket, d.parent, entries) && e.parent == d.parent && ObjKey(d.bucket, e.key) !in rows
    ensures Run(ss, es) && var end := ss[|es|];
      && ListingServed(end, ttl, d) && end.now == now + ttl
      && !IsListing(Latest(end).rows, d.bucket, d.parent, end.listings[d].answer)
  {
    var rows' := rows[ObjKey(d.bucket, e.key) := e];
    assert InDir(rows', d.bucket, d.parent, e) && !InDir(rows, d.bucket, d.parent, e);
    var s0 := State(now, [TableVersion(now, rows)], map[], map[], map[]);
    es := [ReadDir(0, d, entries), Change(rows'), Forget({ObjKey(d.bucket, e.key)}, {d}), Fill(0), Tick(now + ttl)];
    var s1 := Next(s0, es[0]);
    var s2 := Next(s1, es[1]);
    var s3 := Next(s2, es[2]);
    var s4 := Next(s3, es[3]);
    ss := [s0, s1, s2, s3, s4, Next(s4, es[4])];
  }

  // ---------------------------------------------------------------- which entries are wrong

  // This step writes to this key's row, or to this directory.
  predicate WritesRow(s: State, e: Step, id: ObjKey)
    requires s.versions != []
  {
    e.Change? && (id in e.rows) != (id in Latest(s).rows)
  }

  ghost predicate WritesDir(s: State, e: Step, d: Dir)
    requires s.versions != []
  {
    e.Change? && !SameDir(Latest(s).rows, e.rows, d.bucket, d.parent)
  }

  predicate ForgetsKey(e: Step, id: ObjKey) {
    e.Forget? && id in e.ids
  }

  predicate ForgetsDir(e: Step, d: Dir) {
    e.Forget? && d in e.dirs
  }

  // Every write of the key's row before k has been followed by forgetting the key, as Put, PutBatch
  // and Delete do it.
  ghost predicate RowWritesForgotten(ss: seq<State>, es: seq<Step>, k: nat, id: ObjKey)
    requires Run(ss, es) && k < |ss|
  {
    forall i :: 0 <= i < k && WritesRow(ss[i], es[i], id) ==> exists f :: i < f < k && ForgetsKey(es[f], id)
  }

  ghost predicate DirWritesForgotten(ss: seq<State>, es: seq<Step>, k: nat, d: Dir)
    requires Run(ss, es) && k < |ss|
  {
    forall i :: 0 <= i < k && WritesDir(ss[i], es[i], d) ==> exists f :: i < f < k && ForgetsDir(es[f], d)
  }

  // The step is the read of this call.
  predicate Begins(s: State, e: Step, c: nat, call: Call)
    requires s.versions != []
  {
    && call.sight == Sight(|s.versions| - 1, s.now)
    && match call
       case LookingUp(id, _) => e == ReadRow(c, id)
       case ListingDir(d, entries, _) => e == ReadDir(c, d, entries)
  }

  // One call read at step r what it filled in at step j.
  ghost predicate ReadThenFilled(ss: seq<State>, es: seq<Step>, r: nat, j: nat, call: Call)
    requires Run(ss, es)
  {
    r < j < |es| && es[j].Fill? && Begins(ss[r], es[r], es[j].call, call)
    && forall i :: r < i < j ==> es[i] != es[j]
  }

  // Between r and m a row was put under the key, and no write since was without it.
  ghost predicate PutSince(es: seq<Step>, r: nat, m: nat, id: ObjKey)
    requires m <= |es|
  {
    exists i :: r < i < m && es[i].Change? && forall w :: i <= w < m && es[w].Change? ==> id in es[w].rows
  }

  // Which key cached as absent is wrong, in any run: the cache holds what one lookup read at r and
  // filled in at j, and it is wrong exactly if since the read a row was put and not taken away. If
  // writers forget what they write, that happened before j already: the fill was overtaken.
  lemma NegativeWrongExactly(ss: seq<State>, es: seq<Step>, k: nat, id: ObjKey) returns (r: nat, j: nat)
    requires Run(ss, es) && k < |ss| && id in ss[k].negative
    ensures j < k && ReadThenFilled(ss, es, r, j, LookingUp(id, ss[k].negative[id].sight))
    ensures ss[k].negative[id].filled == ss[j].now && forall i :: j < i < k ==> !ForgetsKey(es[i], id)
    ensures id !in Latest(ss[r]).rows
    ensures id in Latest(ss[k]).rows <==> PutSince(es, r, k, id)
    ensures RowWritesForgotten(ss, es, k, id) ==> (id in Latest(ss[k]).rows <==> PutSince(es, r, j, id))
  {
    hide IsListing;
    j := LastNegativeFill(ss, es, k, id);
    r := CallRead(ss, es, j, es[j].call);
    RowPutSince(ss, es, r, k, id);
    RowPutSince(ss, es, r, j, id);
    if RowWritesForgotten(ss, es, k, id) {
      RowUnwritten(ss, es, j, k, k, id);
    }
  }

  // And which cached listing: exactly if the directory is not what it was when it was read. If
  // writers forget what they write, exactly if it had changed between the read and the fill.
  lemma ListingWrongExactly(ss: seq<State>, es: seq<Step>, k: nat, d: Dir) returns (r: nat, j: nat)
    requires Run(ss, es) && k < |ss| && d in ss[k].listings
    ensures j < k
    ensures ReadThenFilled(ss, es, r, j, ListingDir(d, ss[k].listings[d].answer, ss[k].listings[d].sight))
    ensures ss[k].listings[d].filled == ss[j].now && forall i :: j < i < k ==> !ForgetsDir(es[i], d)
    ensures IsListing(Latest(ss[k]).rows, d.bucket, d.parent, ss[k].listings[d].answer) <==>
              SameDir(Latest(ss[r]).rows, Latest(ss[k]).rows, d.bucket, d.parent)
    ensures DirWritesForgotten(ss, es, k, d) ==>
              (IsListing(Latest(ss[k]).rows, d.bucket, d.parent, ss[k].listings[d].answer) <==>
                 SameDir(Latest(ss[r]).rows, Latest(ss[j]).rows, d.bucket, d.parent))
  {
    hide IsListing, SameDir;
    j := LastListingFill(ss, es, k, d);
    r := CallRead(ss, es, j, es[j].call);
    assert Enabled(ss[r], es[r]);
    SameListing(Latest(ss[r]).rows, Latest(ss[k]).rows, d.bucket, d.parent, ss[k].listings[d].answer);
    if DirWritesForgotten(ss, es, k, d) {
      DirUnwritten(ss, es, j, k, k, d);
      SameDirAgrees(Latest(ss[r]).rows, Latest(ss[j]).rows, Latest(ss[k]).rows, d);
    }
  }

  lemma {:induction false} LastNegativeFill(ss: seq<State>, es: seq<Step>, k: nat, id: ObjKey) returns (j: nat)
    requires Run(ss, es) && k < |ss| && id in ss[k].negative
    ensures j < k && es[j].Fill? && es[j].call in ss[j].calls
    ensures ss[j].calls[es[j].call] == LookingUp(id, ss[k].negative[id].sight)
    ensures ss[k].negative[id].filled == ss[j].now && forall i :: j < i < k ==> !ForgetsKey(es[i], id)
  {
    hide IsListing;
    var e, s := es[k - 1], ss[k - 1];
    if e.Fill? && s.calls[e.call].LookingUp? && s.calls[e.call].id == id {
      j := k - 1;
    } else {
      j := LastNegativeFill(ss, es, k - 1, id);
    }
  }

  lemma {:induction false} LastListingFill(ss: seq<State>, es: seq<Step>, k: nat, d: Dir) returns (j: nat)
    requires Run(ss, es) && k < |ss| && d in ss[k].listings
    ensures j < k && es[j].Fill? && es[j].call in ss[j].calls
    ensures ss[j].calls[es[j].call] == ListingDir(d, ss[k].listings[d].answer, ss[k].listings[d].sight)
    ensures ss[k].listings[d].filled == ss[j].now && forall i :: j < i < k ==> !ForgetsDir(es[i], d)
  {
    hide IsListing;
    var e, s := es[k - 1], ss[k - 1];
    if e.Fill? && s.calls[e.call].ListingDir? && s.calls[e.call].dir == d {
      j := k - 1;
    } else {
      j := LastListingFill(ss, es, k - 1, d);
    }
  }

  lemma {:induction false} CallRead(ss: seq<State>, es: seq<Step>, m: nat, c: nat) returns (r: nat)
    requires Run(ss, es) && m < |ss| && c in ss[m].calls
    ensures r < m && Begins(ss[r], es[r], c, ss[m].calls[c]) && forall i :: r < i < m ==> es[i] != Fill(c)
  {
    hide IsListing;
    if c in ss[m - 1].calls {
      r := CallRead(ss, es, m - 1, c);
    } else {
      r := m - 1;
    }
  }

  // A row that was missing at r is there at m exactly if it was put in between and stayed.
  lemma {:induction false} RowPutSince(ss: seq<State>, es: seq<Step>, r: nat, m: nat, id: ObjKey)
    requires Run(ss, es) && r < m < |ss| && es[r].ReadRow? && id !in Latest(ss[r]).rows
    ensures id in Latest(ss[m]).rows <==> PutSince(es, r, m, id)
  {
    hide IsListing, PutSince;
    PutSinceStep(es, r, m, id);
    if m == r + 1 {
    } else {
      RowPutSince(ss, es, r, m - 1, id);
    }
  }

  lemma PutSinceStep(es: seq<Step>, r: nat, m: nat, id: ObjKey)
    requires r < m <= |es|
    ensures PutSince(es, r, m, id) <==>
              m > r + 1 && if es[m - 1].Change? then id in es[m - 1].rows else PutSince(es, r, m - 1, id)
  {
    if m > r + 1 && es[m - 1].Change? && id in es[m - 1].rows {
      assert m - 1 <= m - 1 < m && forall w :: m - 1 <= w < m && es[w].Change? ==> id in es[w].rows;
    }
  }

  // If all writes have been followed by a Forget and there was none since j, no one has written.
  lemma {:induction false} RowUnwritten(ss: seq<State>, es: seq<Step>, j: nat, m: nat, k: nat, id: ObjKey)
    requires Run(ss, es) && j < m <= k < |ss| && es[j].Fill?
    requires RowWritesForgotten(ss, es, k, id) && forall i :: j < i < k ==> !ForgetsKey(es[i], id)
    ensures id in Latest(ss[m]).rows <==> id in Latest(ss[j]).rows
  {
    hide IsListing;
    if m == j + 1 {
    } else {
      RowUnwritten(ss, es, j, m - 1, k, id);
      assert !WritesRow(ss[m - 1], es[m - 1], id);
    }
  }

  lemma {:induction false} DirUnwritten(ss: seq<State>, es: seq<Step>, j: nat, m: nat, k: nat, d: Dir)
    requires Run(ss, es) && j < m <= k < |ss| && es[j].Fill?
    requires DirWritesForgotten(ss, es, k, d) && forall i :: j < i < k ==> !ForgetsDir(es[i], d)
    ensures SameDir(Latest(ss[j]).rows, Latest(ss[m]).rows, d.bucket, d.parent)
  {
    hide IsListing;
    if m == j + 1 {
    } else {
      DirUnwritten(ss, es, j, m - 1, k, d);
      assert !WritesDir(ss[m - 1], es[m - 1], d);
    }
  }

  lemma SameDirAgrees(rows: Rows, rows': Rows, rows'': Rows, d: Dir)
    requires SameDir(rows', rows'', d.bucket, d.parent)
    ensures SameDir(rows, rows', d.bucket, d.parent) <==> SameDir(rows, rows'', d.bucket, d.parent)
  {
  }
}
