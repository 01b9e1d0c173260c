/**
 The catalog's table (internal/catalog/store.go): rows keyed by bucket and key, upserts, deletes,
 and the ordered listing of a directory. SQLite's work is a map; what its statements mean for the
 rows, LIKE included, is spelled out.
 */
module Table {
  import opened Ids
  import opened Keys

  datatype Entry = Entry(
    key: string, parent: string, name: string,
    size: int, etag: string, modified: int, isDir: bool)

  type Rows = map<ObjKey, Entry>

  // A row as every writer makes it: split from its key, a directory when the key ends in a slash.
  predicate WellFormed(e: Entry) {
    e.parent == Parent(e.key) && e.name == Name(e.key) && (e.isDir <==> IsDirKey(e.key))
  }

  predicate RowsWellFormed(rows: Rows) {
    forall id <- rows :: rows[id].key == id.key && WellFormed(rows[id])
  }

  function Row(rows: Rows, bucket: string, key: string): Option<Entry> {
    if ObjKey(bucket, key) in rows then Some(rows[ObjKey(bucket, key)]) else None
  }

  predicate HasChildren(rows: Rows, bucket: string, parent: string) {
    exists id <- rows :: id.bucket == bucket && rows[id].parent == parent
  }

  function PutRow(rows: Rows, bucket: string, e: Entry): Rows {
    rows[ObjKey(bucket, e.key) := e]
  }

  function PutRows(rows: Rows, bucket: string, es: seq<Entry>): Rows {
    if es == [] then rows else PutRow(PutRows(rows, bucket, es[..|es| - 1]), bucket, es[|es| - 1])
  }

  // The last of the entries with this key.
  function LastWith(es: seq<Entry>, key: string): (r: Option<Entry>)
    ensures r.Some? ==> r.value in es && r.value.key == key
    ensures r.None? ==> forall e <- es :: e.key != key
  {
    if es == [] then None
    else if es[|es| - 1].key == key then Some(es[|es| - 1])
    else LastWith(es[..|es| - 1], key)
  }

  // A batch overrides the rows of its keys, the last entry of a key wins, and no row goes away.
  lemma {:induction false} PutRowsRow(rows: Rows, bucket: string, es: seq<Entry>, b: string, key: string)
    ensures Row(PutRows(rows, bucket, es), b, key) ==
      if b == bucket && LastWith(es, key).Some? then LastWith(es, key) else Row(rows, b, key)
  {
    if es == [] {
    } else {
      PutRowsRow(rows, bucket, es[..|es| - 1], b, key);
    }
  }

  lemma {:induction false} PutRowsWellFormed(rows: Rows, bucket: string, es: seq<Entry>)
    requires RowsWellFormed(rows) && forall e <- es :: WellFormed(e)
    ensures RowsWellFormed(PutRows(rows, bucket, es))
  {
    if es == [] {
    } else {
      PutRowsWellFormed(rows, bucket, es[..|es| - 1]);
    }
  }

  // ---------------------------------------------------------------- order of a listing

  // SQLite compares text by its bytes.
  predicate Leq(a: string, b: string) {
    a == "" || (b != "" && (a[0] < b[0] || (a[0] == b[0] && Leq(a[1..], b[1..]))))
  }

  lemma {:induction false} LeqTotal(a: string, b: string)
    ensures Leq(a, b) || Leq(b, a)
    ensures Leq(a, b) && Leq(b, a) ==> a == b
  {
    if a != "" && b != "" {
      LeqTotal(a[1..], b[1..]);
      assert a == [a[0]] + a[1..] && b == [b[0]] + b[1..];
    }
  }

  lemma {:induction false} LeqTransitive(a: string, b: string, c: string)
    requires Leq(a, b) && Leq(b, c)
    ensures Leq(a, c)
  {
    if a != "" && a[0] == b[0] == c[0] {
      LeqTransitive(a[1..], b[1..], c[1..]);
    }
  }

  // By the first byte that differs, and a text before those that go on after it.
  lemma {:induction false} LeqMeans(a: string, b: string)
    ensures Leq(a, b) <==> a <= b || exists i :: 0 <= i < |a| && i < |b| && a[..i] == b[..i] && a[i] < b[i]
  {
    if a == "" || b == "" {
    } else {
      var c, d := a[1..], b[1..];
      LeqMeans(c, d);
      assert a == [a[0]] + c && b == [b[0]] + d;
      if a[0] == b[0] {
        forall i | 0 <= i < |c| && i < |d| ensures c[..i] == d[..i] <==> a[..i + 1] == b[..i + 1] {
          assert a[..i + 1] == [a[0]] + c[..i] && b[..i + 1] == [b[0]] + d[..i];
          assert a[..i + 1][1..] == c[..i] && b[..i + 1][1..] == d[..i];
        }
        if j :| 0 <= j < |c| && j < |d| && c[..j] == d[..j] && c[j] < d[j] {
          assert a[..j + 1] == b[..j + 1] && a[j + 1] < b[j + 1];
        }
        if i :| 0 <= i < |a| && i < |b| && a[..i] == b[..i] && a[i] < b[i] {
          assert i > 0 && c[..i - 1] == d[..i - 1] && c[i - 1] < d[i - 1];
        }
      } else if a[0] < b[0] {
        assert a[..0] == b[..0];
      }
    }
  }

  // ORDER BY is_dir DESC, name ASC
  predicate Before(x: Entry, y: Entry) {
    (x.isDir && !y.isDir) || (x.isDir == y.isDir && Leq(x.name, y.name))
  }

  predicate Ordered(es: seq<Entry>) {
    forall i, j :: 0 <= i < j < |es| ==> Before(es[i], es[j]) && es[i].key != es[j].key
  }

  predicate InDir(rows: Rows, bucket: string, parent: string, e: Entry) {
    ObjKey(bucket, e.key) in rows && rows[ObjKey(bucket, e.key)] == e && e.parent == parent
  }

  // What a listing of the directory says: its rows, each once, directories first, by name.
  ghost predicate IsListing(rows: Rows, bucket: string, parent: string, es: seq<Entry>) {
    && (forall e :: e in es <==> InDir(rows, bucket, parent, e))
    && Ordered(es)
  }

  // Rows whose keys split are told apart by the order, so a directory has one listing.
  lemma ListingUnique(rows: Rows, bucket: string, parent: string, es: seq<Entry>, fs: seq<Entry>)
    requires IsListing(rows, bucket, parent, es) && IsListing(rows, bucket, parent, fs)
    requires forall e <- es :: WellFormed(e) && Splits(e.key)
    ensures es == fs
  {
    assert forall e :: e in fs <==> e in es;
    forall x <- es, y <- es | Before(x, y) && Before(y, x) ensures x == y {
      LeqTotal(x.name, y.name);
      SplitDetermines(x.key, y.key);
    }
    OrderedSame(es, fs);
  }

  lemma {:induction false} OrderedSame(es: seq<Entry>, fs: seq<Entry>)
    requires Ordered(es) && Ordered(fs) && forall e :: e in es <==> e in fs
    requires forall x <- es, y <- es :: Before(x, y) && Before(y, x) ==> x == y
    ensures es == fs
  {
    assert fs != [] ==> fs[0] in es;
    if es == [] {
    } else {
      assert es[0] in fs;
      var i :| 0 <= i < |fs| && fs[i] == es[0];
      var j :| 0 <= j < |es| && es[j] == fs[0];
      assert i == 0;
      forall e ensures e in es[1..] <==> e in fs[1..] {
        RestOf(es, e);
        RestOf(fs, e);
      }
      assert forall e <- es[1..] :: e in es;
      OrderedSame(es[1..], fs[1..]);
    }
  }

  lemma RestOf(es: seq<Entry>, e: Entry)
    requires es != [] && Ordered(es)
    ensures e in es[1..] <==> e in es && e != es[0]
  {
  }

  // ---------------------------------------------------------------- LIKE

  function Lower(c: char): char {
    if 'A' <= c <= 'Z' then c + 'a' - 'A' else c
  }

  // SQLite's LIKE: % stands for anything, _ for one character, and case of ASCII letters is ignored.
  predicate Like(pattern: string, s: string)
    decreases |pattern| + |s|
  {
    if pattern == "" then s == ""
    else if pattern[0] == '%' then Like(pattern[1..], s) || (s != "" && Like(pattern, s[1..]))
    else s != "" && (pattern[0] == '_' || Lower(pattern[0]) == Lower(s[0])) && Like(pattern[1..], s[1..])
  }

  function WithPrefix(rows: Rows, bucket: string, prefix: string): set<ObjKey> {
    set id <- rows | id.bucket == bucket && Like(prefix + "%", id.key)
  }

  predicate Literal(c: char) {
    c != '%' && c != '_' && !('a' <= c <= 'z') && !('A' <= c <= 'Z')
  }

  lemma {:induction false} LikeAnything(s: string)
    ensures Like("%", s)
  {
    assert "%"[1..] == "";
    if s == "" {
    } else {
      LikeAnything(s[1..]);
    }
  }

  // Every key under the prefix goes.
  lemma {:induction false} LikePrefix(prefix: string, s: string)
    requires prefix <= s
    ensures Like(prefix + "%", s)
  {
    if prefix == "" {
      assert prefix + "%" == "%";
      LikeAnything(s);
    } else {
      assert (prefix + "%")[1..] == prefix[1..] + "%";
      LikePrefix(prefix[1..], s[1..]);
    }
  }

  // Whatever x matches itself, so do both sides of it.
  lemma {:induction false} LikeAround(a: string, p: string, s: string)
    requires Like(p, s)
    ensures Like(a + p, a + s)
  {
    if a == "" {
      assert a + p == p && a + s == s;
    } else {
      LikeAround(a[1..], p, s);
      assert (a + p)[1..] == a[1..] + p && (a + s)[1..] == a[1..] + s;
    }
  }

  lemma {:induction false} LikeLiteral(prefix: string, s: string)
    requires forall c <- prefix :: Literal(c)
    requires Like(prefix + "%", s)
    ensures prefix <= s
  {
    if prefix == "" {
    } else {
      assert (prefix + "%")[1..] == prefix[1..] + "%";
      assert prefix[0] in prefix;
      LikeLiteral(prefix[1..], s[1..]);
      assert s == [s[0]] + s[1..] && prefix == [prefix[0]] + prefix[1..];
    }
  }

  // What the pattern character c matches besides itself.
  function Other(c: char): string {
    if c == '%' then "" else if c == '_' then "a" else if 'a' <= c <= 'z' then [c - 'a' + 'A'] else [Lower(c)]
  }

  lemma OtherMatches(c: char, p: string, s: string)
    requires !Literal(c) && Like(p, s)
    ensures Like([c] + p, Other(c) + s)
    ensures Other(c) == "" || (|Other(c)| == 1 && Other(c)[0] != c)
  {
    assert ([c] + p)[1..] == p;
    if c == '%' {
      assert Other(c) + s == s;
    } else {
      assert (Other(c) + s)[1..] == s;
    }
  }

  // A key the pattern matches although the prefix is no prefix of it.
  lemma StrayMatches(prefix: string, i: nat) returns (s: string)
    requires i < |prefix| && !Literal(prefix[i])
    ensures Like(prefix + "%", s) && !(prefix <= s)
  {
    var a, c, rest := prefix[..i], prefix[i], prefix[i + 1..];
    s := a + (Other(c) + rest);
    LikePrefix(rest, rest);
    OtherMatches(c, rest + "%", rest);
    LikeAround(a, [c] + (rest + "%"), Other(c) + rest);
    assert prefix + "%" == a + ([c] + (rest + "%"));
    if Other(c) != "" {
      assert s[i] == Other(c)[0];
    }
  }

  ghost predicate ByPrefix(prefix: string) {
    forall s :: Like(prefix + "%", s) <==> prefix <= s
  }

  // DELETE ... LIKE deletes by prefix exactly when the prefix has no wildcard and no letter.
  lemma LikeIsPrefix(prefix: string)
    ensures ByPrefix(prefix) <==> forall c <- prefix :: Literal(c)
  {
    forall s | prefix <= s ensures Like(prefix + "%", s) {
      LikePrefix(prefix, s);
    }
    if forall c <- prefix :: Literal(c) {
      forall s | Like(prefix + "%", s) ensures prefix <= s {
        LikeLiteral(prefix, s);
      }
    } else {
      var i :| 0 <= i < |prefix| && !Literal(prefix[i]);
      var s := StrayMatches(prefix, i);
      assert !(Like(prefix + "%", s) <==> prefix <= s);
    }
  }

  // What a pattern character other than '%' matches: itself, the same letter in the other case, and '_'
  // anything.
  predicate Matches(p: char, c: char) {
    || p == '_' || p == c
    || ('a' <= p <= 'z' && c == p - 'a' + 'A') || ('A' <= p <= 'Z' && c == p - 'A' + 'a')
  }

  lemma {:induction false} LikePlain(p: string, s: string)
    requires '%' !in p
    ensures Like(p, s) <==> |p| == |s| && forall i :: 0 <= i < |p| ==> Matches(p[i], s[i])
  {
    if p == "" {
    } else if s != "" {
      LikePlain(p[1..], s[1..]);
      assert p == [p[0]] + p[1..] && s == [s[0]] + s[1..];
    }
  }

  // A '%' divides a pattern: the text starts with a match of what is before it and ends with one of what
  // is after it.
  predicate Divides(a: string, b: string, s: string, i: nat, j: nat) {
    i <= j <= |s| && Like(a, s[..i]) && Like(b, s[j..])
  }

  lemma LikeSplits(a: string, b: string, s: string)
    ensures Like(a + "%" + b, s) <==> exists i: nat, j: nat :: Divides(a, b, s, i, j)
  {
    if Like(a + "%" + b, s) {
      var _, _ := LikeDivided(a, b, s);
    }
    forall i: nat, j: nat | Divides(a, b, s, i, j) ensures Like(a + "%" + b, s) {
      LikeJoined(a, b, s, i, j);
    }
  }

  lemma {:induction false} LikeDivided(a: string, b: string, s: string) returns (i: nat, j: nat)
    requires Like(a + "%" + b, s)
    ensures Divides(a, b, s, i, j)
    decreases |a| + |s|
  {
    var p := a + "%" + b;
    if a == "" && Like(p[1..], s) {
      assert p[1..] == b && s[0..] == s;
      i, j := 0, 0;
    } else if a != "" && a[0] == '%' && Like(p[1..], s) {
      assert p[1..] == a[1..] + "%" + b;
      i, j := LikeDivided(a[1..], b, s);
    } else {
      var a' := if a != "" && a[0] != '%' then a[1..] else a;
      assert a != "" ==> p[1..] == a[1..] + "%" + b;
      i, j := LikeDivided(a', b, s[1..]);
      assert s[1..][..i] == s[..i + 1][1..] && s[1..][j..] == s[j + 1..];
      i, j := if a == "" then 0 else i + 1, j + 1;
    }
  }

  lemma {:induction false} LikeJoined(a: string, b: string, s: string, i: nat, j: nat)
    requires Divides(a, b, s, i, j)
    ensures Like(a + "%" + b, s)
    decreases |a| + |s|
  {
    var p := a + "%" + b;
    assert a != "" ==> p[1..] == a[1..] + "%" + b;
    if a == "" && j == 0 {
      assert p[1..] == b && s[0..] == s;
    } else if a != "" && a[0] == '%' && Like(a[1..], s[..i]) {
      LikeJoined(a[1..], b, s, i, j);
    } else {
      var a' := if a != "" && a[0] != '%' then a[1..] else a;
      assert s[1..][j - 1..] == s[j..];
      if a == "" {
        LikeJoined(a, b, s[1..], 0, j - 1);
      } else {
        assert s[1..][..i - 1] == s[..i][1..];
        LikeJoined(a', b, s[1..], i - 1, j - 1);
      }
    }
  }

  // DELETE ... LIKE by a prefix without '%': exactly the keys that begin with it, but for the case of
  // letters and with anything for '_'.
  predicate BeginsWith(prefix: string, key: string) {
    |prefix| <= |key| && forall i :: 0 <= i < |prefix| ==> Matches(prefix[i], key[i])
  }

  lemma LikeBegins(prefix: string, key: string)
    requires '%' !in prefix
    ensures Like(prefix + "%", key) <==> BeginsWith(prefix, key)
  {
    LikeSplits(prefix, "", key);
    assert prefix + "%" + "" == prefix + "%";
    forall i: nat, j: nat | Divides(prefix, "", key, i, j) ensures BeginsWith(prefix, key) {
      LikePlain(prefix, key[..i]);
    }
    if BeginsWith(prefix, key) {
      LikePlain(prefix, key[..|prefix|]);
      assert key[|key|..] == "" && Divides(prefix, "", key, |prefix|, |key|);
    }
  }

  // ---------------------------------------------------------------- reading rows in order

  // The rows in es have been read, those in left have not, and may all come later.
  ghost predicate ReadSoFar(rows: Rows, bucket: string, parent: string, es: seq<Entry>, left: set<ObjKey>) {
    && (forall id <- left :: id in rows && id.bucket == bucket && rows[id].parent == parent)
    && (forall e <- es :: InDir(rows, bucket, parent, e) && ObjKey(bucket, e.key) !in left)
    && (forall id <- rows :: id.bucket == bucket && rows[id].parent == parent ==> id in left || rows[id] in es)
    && (forall e <- es, id <- left :: Before(e, rows[id]))
    && Ordered(es)
  }

  lemma ReadNone(rows: Rows, bucket: string, parent: string, left: set<ObjKey>)
    requires left == set id <- rows | id.bucket == bucket && rows[id].parent == parent
    ensures ReadSoFar(rows, bucket, parent, [], left)
  {
  }

  lemma LeftInRows(rows: Rows, bucket: string, parent: string, es: seq<Entry>, left: set<ObjKey>)
    requires ReadSoFar(rows, bucket, parent, es, left)
    ensures left <= rows.Keys
  {
  }

  lemma ReadAll(rows: Rows, bucket: string, parent: string, es: seq<Entry>)
    requires RowsWellFormed(rows) && ReadSoFar(rows, bucket, parent, es, {})
    ensures IsListing(rows, bucket, parent, es)
  {
    hide Before, Ordered, WellFormed;
    forall e | InDir(rows, bucket, parent, e) ensures e in es {
      assert rows[ObjKey(bucket, e.key)] in es;
    }
  }

  lemma ReadNext(rows: Rows, bucket: string, parent: string, es: seq<Entry>, left: set<ObjKey>, id: ObjKey)
    requires RowsWellFormed(rows) && ReadSoFar(rows, bucket, parent, es, left)
    requires id in left && forall o <- left :: Before(rows[id], rows[o])
    ensures ReadSoFar(rows, bucket, parent, es + [rows[id]], left - {id})
  {
    hide Before, Ordered, WellFormed;
    var x := rows[id];
    assert ObjKey(bucket, x.key) == id;
    OrderedAppend(es, x);
    forall e <- es + [x] ensures InDir(rows, bucket, parent, e) && ObjKey(bucket, e.key) !in left - {id} {
      assert e in es || e == x;
    }
    forall o <- rows | o.bucket == bucket && rows[o].parent == parent ensures o in left - {id} || rows[o] in es + [x] {
      assert o in left || rows[o] in es;
    }
    forall e <- es + [x], o <- left - {id} ensures Before(e, rows[o]) {
      assert e in es || e == x;
    }
  }

  lemma OrderedAppend(es: seq<Entry>, x: Entry)
    requires Ordered(es) && forall e <- es :: Before(e, x) && e.key != x.key
    ensures Ordered(es + [x])
  {
    forall i, j | 0 <= i < j < |es| + 1
      ensures Before((es + [x])[i], (es + [x])[j]) && (es + [x])[i].key != (es + [x])[j].key
    {
      assert es[i] in es;
    }
  }

  // ---------------------------------------------------------------- the table itself

  class Store {
    var rows: Rows

    constructor ()
      ensures rows == map[]
    {
      rows := map[];
    }

    method ListDir(bucket: string, parent: string) returns (es: seq<Entry>)
      requires RowsWellFormed(rows)
      ensures IsListing(rows, bucket, parent, es)
    {
      hide ReadSoFar, IsListing, Before, RowsWellFormed;
      var left := set id <- rows | id.bucket == bucket && rows[id].parent == parent;
      es := [];
      ReadNone(rows, bucket, parent, left);
      while left != {}
        invariant ReadSoFar(rows, bucket, parent, es, left)
        decreases |left|
      {
        LeftInRows(rows, bucket, parent, es, left);
        ghost var _ := First(rows, left);
        var id :| id in left && forall o <- left :: Before(rows[id], rows[o]);
        ReadNext(rows, bucket, parent, es, left, id);
        es := es + [rows[id]];
        left := left - {id};
      }
      ReadAll(rows, bucket, parent, es);
    }

    method Lookup(bucket: string, key: string) returns (r: Option<Entry>)
      ensures r == Row(rows, bucket, key)
    {
      r := Row(rows, bucket, key);
    }

    method Put(bucket: string, e: Entry)
      modifies this
      ensures rows == PutRow(old(rows), bucket, e)
    {
      rows := rows[ObjKey(bucket, e.key) := e];
    }

    // One transaction: all the entries in order, a later one over an earlier one of its key.
    method PutBatch(bucket: string, es: seq<Entry>)
      modifies this
      ensures rows == PutRows(old(rows), bucket, es)
    {
      for i := 0 to |es|
        invariant rows == PutRows(old(rows), bucket, es[..i])
      {
        assert es[..i + 1][..i] == es[..i];
        rows := rows[ObjKey(bucket, es[i].key) := es[i]];
      }
      assert es[..|es|] == es;
    }

    method Delete(bucket: string, key: string)
      modifies this
      ensures rows == old(rows) - {ObjKey(bucket, key)}
    {
      rows := rows - {ObjKey(bucket, key)};
    }

    method DeletePrefix(bucket: string, prefix: string)
      modifies this
      ensures rows == old(rows) - WithPrefix(old(rows), bucket, prefix)
      ensures forall id <- old(rows) :: id in rows <==> id.bucket != bucket || !Like(prefix + "%", id.key)
    {
      rows := rows - WithPrefix(rows, bucket, prefix);
    }

    predicate HasDir(bucket: string, parent: string)
      reads this
    {
      HasChildren(rows, bucket, parent)
    }

    method KnownDirs(bucket: string) returns (dirs: seq<string>)
      requires RowsWellFormed(rows)
      ensures forall d :: d in dirs <==> ObjKey(bucket, d) in rows && IsDirKey(d)
      ensures |dirs| == |Known(rows, bucket)| && forall i, j :: 0 <= i < j < |dirs| ==> dirs[i] != dirs[j]
    {
      hide RowsWellFormed, IsDirKey;
      DirRows(rows, bucket);
      var left := set id <- rows | id.bucket == bucket && rows[id].isDir;
      dirs := [];
      KeysOnce(rows, bucket, left);
      while left != {}
        invariant |dirs| + |left| == |Known(rows, bucket)|
        invariant forall i, j :: 0 <= i < j < |dirs| ==> dirs[i] != dirs[j]
        invariant forall d <- dirs :: ObjKey(bucket, d) !in left
        invariant forall d: string ::
          (d in dirs || ObjKey(bucket, d) in left) <==> ObjKey(bucket, d) in rows && IsDirKey(d)
        invariant forall id <- left :: id.bucket == bucket
        decreases |left|
      {
        var id :| id in left;
        assert id == ObjKey(bucket, id.key);
        dirs := dirs + [id.key];
        left := left - {id};
      }
    }
  }

  // The directories that the table knows of.
  function Known(rows: Rows, bucket: string): set<string> {
    set id <- rows | id.bucket == bucket && IsDirKey(id.key) :: id.key
  }

  lemma KeysOnce(rows: Rows, bucket: string, left: set<ObjKey>)
    requires RowsWellFormed(rows) && left == set id <- rows | id.bucket == bucket && rows[id].isDir
    ensures |Known(rows, bucket)| == |left|
  {
    hide Parent, Name;
    CountKeys(bucket, left);
    assert Known(rows, bucket) == set id <- left :: id.key;
  }

  lemma {:induction false} CountKeys(bucket: string, ids: set<ObjKey>)
    requires forall id <- ids :: id.bucket == bucket
    ensures |set id <- ids :: id.key| == |ids|
  {
    if ids == {} {
    } else {
      var id :| id in ids;
      CountKeys(bucket, ids - {id});
      assert (set o <- ids :: o.key) == (set o <- ids - {id} :: o.key) + {id.key};
    }
  }

  lemma DirRows(rows: Rows, bucket: string)
    requires RowsWellFormed(rows)
    ensures forall d: string :: ObjKey(bucket, d) in rows ==> (rows[ObjKey(bucket, d)].isDir <==> IsDirKey(d))
  {
  }

  // Among rows there is one that may come first.
  lemma {:induction false} First(rows: Rows, left: set<ObjKey>) returns (first: ObjKey)
    requires left != {} && left <= rows.Keys
    ensures first in left && forall o <- left :: Before(rows[first], rows[o])
    decreases |left|
  {
    first :| first in left;
    var rest := left - {first};
    LeqTotal(rows[first].name, rows[first].name);
    if rest == {} {
      assert left == {first};
    } else {
      var f := First(rows, rest);
      LeqTotal(rows[f].name, rows[first].name);
      if Before(rows[f], rows[first]) {
        first := f;
      } else {
        forall o <- left ensures Before(rows[first], rows[o]) {
          if o != first {
            BeforeTransitive(rows[first], rows[f], rows[o]);
          }
        }
      }
    }
  }

  lemma BeforeTransitive(x: Entry, y: Entry, z: Entry)
    requires Before(x, y) && Before(y, z)
    ensures Before(x, z)
  {
    if x.isDir == y.isDir == z.isDir {
      LeqTransitive(x.name, y.name, z.name);
    }
  }
}
