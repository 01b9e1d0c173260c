/**
 Object keys and how the catalog splits them (SplitKeyExported, internal/catalog/sync.go). Go's
 path.Dir cleans its argument, so splitting loses part of some keys; which ones is exact below.
 */

// What names an object, a row or a cached file.
module Ids {
  datatype ObjKey = ObjKey(bucket: string, key: string)

  datatype Option<T> = None | Some(value: T)
}

module Keys {

  // ---------------------------------------------------------------- segments

  // strings.LastIndex(s, "/")
  function LastSlash(s: string): (i: int)
    ensures -1 <= i < |s|
    ensures i >= 0 ==> s[i] == '/'
    ensures forall j :: i < j < |s| ==> s[j] != '/'
  {
    if s == "" then -1 else if s[|s| - 1] == '/' then |s| - 1 else LastSlash(s[..|s| - 1])
  }

  // The pieces between slashes; there is always at least one.
  function Segments(s: string): (r: seq<string>)
    ensures |r| >= 1
  {
    var i := LastSlash(s);
    if i < 0 then [s] else Segments(s[..i]) + [s[i + 1..]]
  }

  function Join(segs: seq<string>): string {
    if segs == [] then ""
    else if |segs| == 1 then segs[0]
    else Join(segs[..|segs| - 1]) + "/" + segs[|segs| - 1]
  }

  predicate NoSlash(s: string) {
    forall i :: 0 <= i < |s| ==> s[i] != '/'
  }

  lemma LastSlashAt(s: string, i: nat)
    requires i < |s| && s[i] == '/' && forall j :: i < j < |s| ==> s[j] != '/'
    ensures LastSlash(s) == i
  {
  }

  lemma LastSlashOf(a: string, b: string)
    requires NoSlash(b)
    ensures var s := a + "/" + b; LastSlash(s) == |a| && s[..|a|] == a && s[|a| + 1..] == b
  {
    var s := a + "/" + b;
    assert s[|a|] == '/' && forall j :: |a| < j < |s| ==> s[j] == b[j - |a| - 1];
    LastSlashAt(s, |a|);
  }

  lemma {:induction false} JoinSegments(s: string)
    ensures Join(Segments(s)) == s
    ensures forall x <- Segments(s) :: NoSlash(x)
  {
    var i := LastSlash(s);
    if i >= 0 {
      JoinSegments(s[..i]);
      assert Segments(s)[..|Segments(s)| - 1] == Segments(s[..i]);
      assert s == s[..i] + "/" + s[i + 1..];
    }
  }

  lemma SegmentsConcat(a: string, b: string)
    requires NoSlash(b)
    ensures Segments(a + "/" + b) == Segments(a) + [b]
  {
    LastSlashOf(a, b);
  }

  lemma {:induction false} SegmentsJoin(segs: seq<string>)
    requires segs != [] && forall x <- segs :: NoSlash(x)
    ensures Segments(Join(segs)) == segs
  {
    hide NoSlash, Segments;
    var init, last := segs[..|segs| - 1], segs[|segs| - 1];
    assert segs == init + [last] && last in segs;
    if init == [] {
      SegmentsPlain(last);
    } else {
      assert forall x <- init :: x in segs;
      SegmentsJoin(init);
      SegmentsConcat(Join(init), last);
    }
  }

  lemma SegmentsPlain(s: string)
    requires NoSlash(s)
    ensures Segments(s) == [s]
  {
  }

  // Only an empty or rooted string starts with an empty segment.
  lemma {:induction false} FirstSegment(s: string)
    ensures Segments(s)[0] == "" <==> s == "" || s[0] == '/'
  {
    var i := LastSlash(s);
    if i >= 0 {
      FirstSegment(s[..i]);
    }
  }

  // ---------------------------------------------------------------- Go's package path

  // Clean drops empty and "." elements; ".." takes the element before it away, stays at the
  // front of a relative path, and vanishes at the front of a rooted one.
  function Push(rooted: bool, out: seq<string>, seg: string): (r: seq<string>)
    ensures |r| <= |out| + 1 && forall x <- r :: x in out || (x == seg && x != "" && x != ".")
  {
    if seg == "" || seg == "." then out
    else if seg != ".." then out + [seg]
    else if out != [] && out[|out| - 1] != ".." then out[..|out| - 1]
    else if rooted then out
    else out + [seg]
  }

  function Reduce(rooted: bool, segs: seq<string>): (out: seq<string>)
    ensures |out| <= |segs|
    ensures forall x <- out :: x in segs && x != "" && x != "."
  {
    if segs == [] then []
    else
      assert segs == segs[..|segs| - 1] + [segs[|segs| - 1]];
      Push(rooted, Reduce(rooted, segs[..|segs| - 1]), segs[|segs| - 1])
  }

  // What is done to the elements: an empty one and "." make no difference, a name is taken back by a
  // ".." after it, and at the front of a rooted path ".." makes none. With ReduceNormal, which says that
  // nothing else is done, that determines the result.
  lemma ReduceCancels(rooted: bool, a: seq<string>, x: string, b: seq<string>)
    ensures Reduce(rooted, a + [""] + b) == Reduce(rooted, a + ["."] + b) == Reduce(rooted, a + b)
    ensures x !in ["", ".", ".."] ==> Reduce(rooted, a + [x] + [".."] + b) == Reduce(rooted, a + b)
    ensures Reduce(true, [".."] + b) == Reduce(true, b)
  {
    assert [".."] + [] == [".."] && [".."][..0] == [];
    ReduceOn(rooted, a, "");
    ReduceOn(rooted, a, ".");
    ReduceOn(rooted, a, x);
    ReduceOn(rooted, a + [x], "..");
    ReduceOn(true, [], "..");
    assert [] + [".."] == [".."] && [] + b == b && a + [x] + [".."] + b == (a + [x] + [".."]) + b;
    ReduceAlike(rooted, a + [""], a, b);
    ReduceAlike(rooted, a + ["."], a, b);
    if x !in ["", ".", ".."] {
      ReduceAlike(rooted, a + [x] + [".."], a, b);
    }
    ReduceAlike(true, [".."], [], b);
  }

  lemma ReduceOn(rooted: bool, a: seq<string>, x: string)
    ensures Reduce(rooted, a + [x]) == Push(rooted, Reduce(rooted, a), x)
  {
    assert (a + [x])[..|a|] == a;
  }

  lemma {:induction false} ReduceAlike(rooted: bool, a: seq<string>, c: seq<string>, b: seq<string>)
    requires Reduce(rooted, a) == Reduce(rooted, c)
    ensures Reduce(rooted, a + b) == Reduce(rooted, c + b)
  {
    hide Reduce, Push;
    if b == [] {
      assert a + b == a && c + b == c;
    } else {
      var init, last := b[..|b| - 1], b[|b| - 1];
      ReduceAlike(rooted, a, c, init);
      assert a + b == (a + init) + [last] && c + b == (c + init) + [last];
      ReduceOn(rooted, a + init, last);
      ReduceOn(rooted, c + init, last);
    }
  }

  predicate Rooted(s: string) {
    s != "" && s[0] == '/'
  }

  function Clean(s: string): string {
    var r := (if Rooted(s) then "/" else "") + Join(Reduce(Rooted(s), Segments(s)));
    if r == "" then "." else r
  }

  function Dir(s: string): string {
    Clean(s[..LastSlash(s) + 1])
  }

  function TrimSlashes(s: string): string {
    if s != "" && s[|s| - 1] == '/' then TrimSlashes(s[..|s| - 1]) else s
  }

  function Base(s: string): string {
    if s == "" then "."
    else
      var t := TrimSlashes(s);
      var name := t[LastSlash(t) + 1..];
      if name == "" then "/" else name
  }

  // ---------------------------------------------------------------- SplitKeyExported

  predicate IsDirKey(key: string) {
    key != "" && key[|key| - 1] == '/'
  }

  // strings.TrimSuffix(key, "/")
  function Trim(key: string): string {
    if IsDirKey(key) then key[..|key| - 1] else key
  }

  function Parent(key: string): string {
    var d := Dir(Trim(key));
    if d == "." then "" else d + "/"
  }

  function Name(key: string): string {
    Base(Trim(key))
  }

  // Parent and name put together are the key again, up to a trailing slash.
  predicate Splits(key: string) {
    Parent(key) + Name(key) == Trim(key)
  }

  // ---------------------------------------------------------------- what Clean leaves alone

  // Clean changes nothing: no empty or "." element, and ".." only at the front of a relative path.
  predicate Normal(rooted: bool, segs: seq<string>) {
    forall i :: 0 <= i < |segs| ==> NormalAt(rooted, segs, i)
  }

  predicate NormalAt(rooted: bool, segs: seq<string>, i: nat)
    requires i < |segs|
  {
    segs[i] != "" && segs[i] != "." && (segs[i] == ".." ==> !rooted && (i == 0 || segs[i - 1] == ".."))
  }

  lemma {:induction false} ReduceNormal(rooted: bool, segs: seq<string>)
    ensures Normal(rooted, segs) ==> Reduce(rooted, segs) == segs
    ensures |Reduce(rooted, segs)| == |segs| ==> Normal(rooted, segs)
  {
    if segs == [] {
    } else {
      var init, last := segs[..|segs| - 1], segs[|segs| - 1];
      ReduceNormal(rooted, init);
      assert segs == init + [last];
      if Normal(rooted, segs) {
        NormalInit(rooted, segs);
        assert NormalAt(rooted, segs, |init|);
        assert Push(rooted, init, last) == segs;
      } else if Normal(rooted, init) {
        NotNormalNow(rooted, init, last);
      }
    }
  }

  lemma NormalInit(rooted: bool, segs: seq<string>)
    requires segs != [] && Normal(rooted, segs)
    ensures Normal(rooted, segs[..|segs| - 1])
  {
    var init := segs[..|segs| - 1];
    forall i | 0 <= i < |init| ensures NormalAt(rooted, init, i) {
      assert NormalAt(rooted, segs, i);
    }
  }

  lemma NotNormalNow(rooted: bool, init: seq<string>, last: string)
    requires Normal(rooted, init) && !Normal(rooted, init + [last])
    ensures |Push(rooted, init, last)| <= |init|
  {
    var segs := init + [last];
    forall i | 0 <= i < |init| ensures NormalAt(rooted, segs, i) {
      assert NormalAt(rooted, init, i);
    }
    assert !NormalAt(rooted, segs, |init|);
  }

  lemma {:induction false} JoinRooted(rest: seq<string>)
    requires rest != []
    ensures Join([""] + rest) == "/" + Join(rest)
  {
    var r := [""] + rest;
    assert r[..|r| - 1] == [""] + rest[..|rest| - 1];
    if |rest| > 1 {
      JoinRooted(rest[..|rest| - 1]);
    }
  }

  lemma JoinIsDot(out: seq<string>)
    requires forall x <- out :: x != "" && x != "."
    ensures Join(out) != "."
    ensures Join(out) == "" <==> out == []
  {
    if |out| == 1 {
      assert out[0] in out;
    } else if out != [] {
      var last := out[|out| - 1];
      assert last in out && last != "" && |Join(out)| >= 2;
    }
  }

  // ---------------------------------------------------------------- splitting, by segments

  // What cleaning makes of the elements before a name.
  function Cleaned(dirs: seq<string>): string
    requires dirs != []
  {
    var rooted := dirs[0] == "";
    var out := Reduce(rooted, dirs);
    if rooted then "/" + Join(out) + "/" else if out == [] then "" else Join(out) + "/"
  }

  lemma SplitPlain(key: string)
    requires NoSlash(Trim(key))
    ensures Parent(key) == "" && Name(key) == (if Trim(key) == "" then "." else Trim(key))
  {
    var t := Trim(key);
    assert LastSlash(t) == -1;
    assert t[..LastSlash(t) + 1] == "";
    assert Segments("") == [""] && Reduce(false, [""]) == [] by { assert [""][..0] == []; }
    assert TrimSlashes(t) == t;
  }

  lemma SplitBelow(key: string, a: string, name: string)
    requires Trim(key) == a + "/" + name && NoSlash(name)
    ensures Parent(key) == Cleaned(Segments(a)) && (name != "" ==> Name(key) == name)
  {
    var t := Trim(key);
    LastSlashOf(a, name);
    assert t[..|a| + 1] == a + "/";
    DirOf(a);
    if name != "" {
      assert t[|t| - 1] == name[|name| - 1];
      assert TrimSlashes(t) == t;
    }
  }

  lemma CleanOf(a: string)
    ensures var rooted := Segments(a)[0] == "";
      var r := (if rooted then "/" else "") + Join(Reduce(rooted, Segments(a)));
      Clean(a + "/") == if r == "" then "." else r
  {
    var s := a + "/";
    SegmentsConcat(a, "");
    assert s == a + "/" + "";
    assert Segments(s)[..|Segments(s)| - 1] == Segments(a);
    FirstSegment(a);
    assert Rooted(s) == (Segments(a)[0] == "");
  }

  lemma DirOf(a: string)
    ensures (if Clean(a + "/") == "." then "" else Clean(a + "/") + "/") == Cleaned(Segments(a))
  {
    hide Clean, Reduce;
    CleanOf(a);
    var rooted := Segments(a)[0] == "";
    var out := Reduce(rooted, Segments(a));
    JoinIsDot(out);
    if rooted {
      assert ("/" + Join(out))[0] == '/';
    } else {
      assert "" + Join(out) == Join(out);
    }
  }

  // ---------------------------------------------------------------- when splitting loses nothing

  // The elements in front of the name: none; relative ones that Clean leaves alone; rooted ones
  // that it leaves alone, but not none (the root's parent gets a second slash) - except where the
  // key has that second slash itself.
  predicate Faithful(dirs: seq<string>) {
    || dirs == []
    || (dirs[0] != "" && Normal(false, dirs))
    || (dirs[0] == "" && |dirs| >= 2 && (Normal(true, dirs[1..]) || dirs[1..] == [""]))
  }

  // Keys of four slashes are an accident: root's double slash and the base name "/" add up.
  predicate Splittable(key: string) {
    var segs := Segments(Trim(key));
    Trim(key) == "///" || (segs[|segs| - 1] != "" && Faithful(segs[..|segs| - 1]))
  }

  // Splitting and joining undo each other for these keys and no others.
  lemma SplitsExactly(key: string)
    ensures Splits(key) <==> Splittable(key)
  {
    hide Parent, Name, Cleaned, Normal, Reduce, Join, Faithful;
    var t := Trim(key);
    var i := LastSlash(t);
    if i < 0 {
      SplitPlain(key);
      NoDirs();
      var one: seq<string> := [t];
      assert one[..0] == [];
    } else {
      var a, name := t[..i], t[i + 1..];
      assert t == a + "/" + name;
      SegmentsConcat(a, name);
      SplitBelow(key, a, name);
      if name == "" {
        EmptyNameLost(key, a);
      } else {
        JoinSegments(a);
        DirKept(Segments(a));
        SameTail(Cleaned(Segments(a)), a + "/", name);
        assert (Segments(a) + [name])[..|Segments(a)|] == Segments(a);
      }
    }
  }

  lemma NoDirs()
    ensures Faithful([])
  {
  }

  lemma SameTail(x: string, y: string, tail: string)
    ensures x + tail == y + tail <==> x == y
  {
    if x + tail == y + tail {
      assert x == (x + tail)[..|x|] && y == (y + tail)[..|y|];
    }
  }

  // The directory part survives cleaning exactly when its elements are faithful.
  lemma DirKept(dirs: seq<string>)
    requires dirs != [] && forall x <- dirs :: NoSlash(x)
    ensures Cleaned(dirs) == Join(dirs) + "/" <==> Faithful(dirs)
  {
    if dirs[0] == "" {
      assert dirs == [""] + dirs[1..];
      RootedDirKept(dirs[1..]);
    } else {
      var out := Reduce(false, dirs);
      ReduceNormal(false, dirs);
      JoinDetermines(out, dirs);
      SameTail(Join(out), Join(dirs), "/");
    }
  }

  lemma RootedDirKept(rest: seq<string>)
    requires forall x <- rest :: NoSlash(x)
    ensures var dirs := [""] + rest;
      Cleaned(dirs) == Join(dirs) + "/" <==> rest != [] && (Normal(true, rest) || rest == [""])
  {
    var dirs, out := [""] + rest, Reduce(true, rest);
    ReduceSkipsRoot(true, rest);
    assert Cleaned(dirs) == "/" + Join(out) + "/";
    if rest != [] {
      ReduceNormal(true, rest);
      JoinRooted(rest);
      SameTail("/" + Join(out), "/" + Join(rest), "/");
      assert ("/" + Join(out))[1..] == Join(out) && ("/" + Join(rest))[1..] == Join(rest);
      JoinDetermines(out, rest);
    }
  }

  lemma JoinDetermines(out: seq<string>, segs: seq<string>)
    requires segs != [] && forall x <- out + segs :: NoSlash(x)
    ensures Join(out) == Join(segs) <==> out == segs || (out == [] && segs == [""])
  {
    SegmentsJoin(segs);
    if out != [] {
      SegmentsJoin(out);
    }
  }

  lemma {:induction false} ReduceSkipsRoot(rooted: bool, segs: seq<string>)
    ensures Reduce(rooted, [""] + segs) == Reduce(rooted, segs)
  {
    var r := [""] + segs;
    if segs != [] {
      ReduceSkipsRoot(rooted, segs[..|segs| - 1]);
      assert r[..|r| - 1] == [""] + segs[..|segs| - 1];
    } else {
      assert r[..0] == [];
    }
  }

  // A key that ends in two slashes gets a name from elsewhere.
  lemma EmptyNameLost(key: string, a: string)
    requires Trim(key) == a + "/"
    ensures Splits(key) <==> Trim(key) == "///"
  {
    hide Parent, Name, Trim;
    if TrimSlashes(Trim(key)) == "" {
      SlashesSplit(key, a);
      assert "//" + "/" == "///";
    } else {
      TrimmedEnds(key);
      EndsIn(Parent(key), Name(key));
      AllSlashes("///");
    }
  }

  // Nothing but slashes: root's parent, and the base name "/".
  lemma SlashesSplit(key: string, a: string)
    requires Trim(key) == a + "/" && TrimSlashes(Trim(key)) == ""
    ensures Parent(key) == "//" && Name(key) == "/"
  {
    hide Dir, Clean, Segments, Reduce, Join;
    var t := Trim(key);
    TrimmedSlashes(t);
    assert t == a + "/" + "";
    SplitBelow(key, a, "");
    assert forall i :: 0 <= i < |a| ==> a[i] == t[i];
    SlashesReduceToNothing(a);
    NothingCleaned(Segments(a));
  }

  lemma NothingCleaned(dirs: seq<string>)
    requires dirs != [] && dirs[0] == "" && Reduce(true, dirs) == []
    ensures Cleaned(dirs) == "//"
  {
    assert "/" + "" + "/" == "//";
  }

  lemma TrimmedEnds(key: string)
    requires TrimSlashes(Trim(key)) != ""
    ensures Name(key) != "" && Name(key)[|Name(key)| - 1] != '/'
  {
    TrimmedName(Trim(key));
  }

  lemma TrimmedName(t: string)
    requires TrimSlashes(t) != ""
    ensures Base(t) != "" && Base(t)[|Base(t)| - 1] != '/'
  {
    TrimmedSlashes(t);
  }

  lemma {:induction false} AllSlashes(s: string)
    requires forall i :: 0 <= i < |s| ==> s[i] == '/'
    ensures TrimSlashes(s) == ""
  {
    if s == "" {
    } else {
      AllSlashes(s[..|s| - 1]);
    }
  }

  lemma EndsIn(x: string, y: string)
    requires y != ""
    ensures (x + y)[|x + y| - 1] == y[|y| - 1]
  {
  }

  lemma {:induction false} TrimmedSlashes(s: string)
    ensures var u := TrimSlashes(s);
      && (u != "" ==> u[|u| - 1] != '/')
      && |u| <= |s| && forall i :: |u| <= i < |s| ==> s[i] == '/'
  {
    if s != "" && s[|s| - 1] == '/' {
      TrimmedSlashes(s[..|s| - 1]);
    }
  }

  lemma {:induction false} SlashesReduceToNothing(s: string)
    requires forall i :: 0 <= i < |s| ==> s[i] == '/'
    ensures Segments(s)[0] == "" && Reduce(true, Segments(s)) == []
  {
    var i := LastSlash(s);
    if i >= 0 {
      SlashesReduceToNothing(s[..i]);
      assert Segments(s)[..|Segments(s)| - 1] == Segments(s[..i]);
    } else {
      assert [""][..0] == [];
    }
  }

  // ---------------------------------------------------------------- clean keys

  // A name as the kernel passes it, and as a clean key is made of.
  predicate PlainName(s: string) {
    NoSlash(s) && s != "" && s != "." && s != ".."
  }

  // A segment is a plain name exactly if cleaning keeps it, wherever it stands below a root.
  lemma PlainMeans(s: string)
    requires NoSlash(s)
    ensures PlainName(s) <==> Clean("/" + s) == "/" + s && s != ""
  {
    assert "/" + s == "" + "/" + s;
    SegmentsConcat("", s);
    assert Segments("") == [""] && ["", s][..1] == [""] && [""][..0] == [];
    assert Reduce(true, [""]) == [];
    var out := Push(true, [], s);
    assert Reduce(true, Segments("/" + s)) == out;
    if s == ".." || s == "." {
      assert ("/" + s)[1] == '.';
    }
  }

  // The prefix of a directory: empty for the root, else plain names each followed by a slash.
  predicate CleanPrefix(p: string) {
    p == "" || (IsDirKey(p) && forall x <- Segments(Trim(p)) :: PlainName(x))
  }

  // No empty, "." or ".." element.
  predicate CleanKey(key: string) {
    forall x <- Segments(Trim(key)) :: PlainName(x)
  }

  // Splitting a child of a clean directory gives back the directory and the name, file or not.
  lemma SplitChild(prefix: string, name: string)
    requires CleanPrefix(prefix) && NoSlash(name) && name != ""
    ensures Parent(prefix + name) == prefix && Name(prefix + name) == name
    ensures Parent(prefix + name + "/") == prefix && Name(prefix + name + "/") == name
    ensures !IsDirKey(prefix + name) && Trim(prefix + name + "/") == prefix + name
  {
    var k := prefix + name;
    EndsIn(prefix, name);
    assert Trim(k + "/") == k == Trim(k);
    if prefix == "" {
      assert k == name;
      SplitPlain(k);
      SplitPlain(k + "/");
    } else {
      var a := Trim(prefix);
      assert prefix == a + "/";
      SplitBelow(k, a, name);
      SplitBelow(k + "/", a, name);
      JoinSegments(a);
      CleanIsFaithful(Segments(a));
    }
  }

  // Also when the name is empty, as in a key with two slashes in a row.
  lemma ParentOfGroup(prefix: string, name: string)
    requires CleanPrefix(prefix) && NoSlash(name)
    ensures Parent(prefix + name + "/") == prefix
  {
    if name != "" {
      SplitChild(prefix, name);
    } else if prefix == "" {
      assert prefix + name + "/" == "/";
      SplitPlain("/");
    } else {
      var a := Trim(prefix);
      assert prefix + name + "/" == prefix + "/" && prefix == a + "/" == a + "/" + "";
      SplitBelow(prefix + "/", a, "");
      JoinSegments(a);
      CleanIsFaithful(Segments(a));
    }
  }

  lemma CleanIsFaithful(dirs: seq<string>)
    requires dirs != [] && forall x <- dirs :: PlainName(x)
    ensures Cleaned(dirs) == Join(dirs) + "/"
  {
    assert forall i :: 0 <= i < |dirs| ==> PlainName(dirs[i]);
    DirKept(dirs);
  }

  // A clean key is a plain name below a clean directory, so splitting it loses nothing.
  lemma CleanKeySplits(key: string)
    requires CleanKey(key)
    ensures CleanPrefix(Parent(key)) && PlainName(Name(key)) && Splits(key)
  {
    var t := Trim(key);
    var i := LastSlash(t);
    var segs := Segments(t);
    assert segs[|segs| - 1] in segs;
    if i < 0 {
      SplitPlain(key);
    } else {
      var a, name := t[..i], t[i + 1..];
      assert segs == Segments(a) + [name];
      assert forall x <- Segments(a) :: x in segs;
      assert t == a + "/" + name;
      SplitBelow(key, a, name);
      CleanIsFaithful(Segments(a));
      JoinSegments(a);
      assert Trim(a + "/") == a;
    }
  }

  // Below a clean directory a plain name makes a clean directory.
  lemma ChildPrefix(prefix: string, name: string)
    requires CleanPrefix(prefix) && PlainName(name)
    ensures CleanPrefix(prefix + name + "/")
  {
    assert Trim(prefix + name + "/") == prefix + name;
    if prefix == "" {
      assert prefix + name == name;
      SegmentsPlain(name);
    } else {
      var a := Trim(prefix);
      assert prefix + name == a + "/" + name;
      SegmentsConcat(a, name);
    }
  }

  // Parent, name and kind determine a key that splits.
  lemma SplitDetermines(k: string, l: string)
    requires Splits(k) && Splits(l)
    requires Parent(k) == Parent(l) && Name(k) == Name(l) && (IsDirKey(k) <==> IsDirKey(l))
    ensures k == l
  {
    hide Parent, Name;
    TrimBack(k);
    TrimBack(l);
  }

  lemma TrimBack(k: string)
    ensures k == Trim(k) + (if IsDirKey(k) then "/" else "")
  {
  }

  // Without that they do not: two slashes in a row split like one.
  lemma DoubledSlashCollides(prefix: string, name: string)
    requires CleanPrefix(prefix) && prefix != "" && NoSlash(name) && name != ""
    ensures var k, l := prefix + name, prefix + "/" + name;
      Parent(k) == Parent(l) && Name(k) == Name(l) && !IsDirKey(k) && !IsDirKey(l) && k != l && Splits(k) && !Splits(l)
  {
    hide Parent, Name;
    var a, l := Trim(prefix), prefix + "/" + name;
    assert prefix == a + "/" == a + "/" + "";
    SplitChild(prefix, name);
    EndsIn(prefix + "/", name);
    assert Trim(l) == l == prefix + "/" + name;
    SegmentsConcat(a, "");
    SplitBelow(l, prefix, name);
    var dirs := Segments(a);
    assert Segments(prefix)[..|dirs|] == dirs;
    JoinSegments(a);
    CleanIsFaithful(dirs);
    assert dirs[0] in dirs;
    assert Cleaned(Segments(prefix)) == Cleaned(dirs);
    assert |l| == |prefix + name| + 1;
  }

  lemma {:induction false} EmptySegment(x: string, y: string)
    requires x == "" || IsDirKey(x)
    ensures "" in Segments(x + "/" + y)
  {
    hide Segments;
    var i := LastSlash(y);
    if i < 0 {
      SegmentsConcat(x, y);
      EmptyLast(x);
    } else {
      EmptySegment(x, y[..i]);
      assert y == y[..i] + "/" + y[i + 1..];
      assert x + "/" + y == (x + "/" + y[..i]) + "/" + y[i + 1..];
      SegmentsConcat(x + "/" + y[..i], y[i + 1..]);
    }
  }

  lemma EmptyLast(x: string)
    requires x == "" || IsDirKey(x)
    ensures "" in Segments(x)
  {
    if x != "" {
      assert x == Trim(x) + "/" + "";
      SegmentsConcat(Trim(x), "");
    } else {
      SegmentsPlain("");
    }
  }

  // A clean key never goes on with a second slash after a prefix.
  lemma CleanHasNoDoubledSlash(prefix: string, key: string)
    requires (prefix == "" || IsDirKey(prefix)) && prefix + "/" <= key
    ensures !CleanKey(key)
  {
    var rest := key[|prefix| + 1..];
    assert key == prefix + "/" + rest;
    var t := Trim(key);
    if rest == "" {
      assert t == prefix;
      EmptyLast(prefix);
    } else {
      assert t == prefix + "/" + (if IsDirKey(key) then rest[..|rest| - 1] else rest);
      EmptySegment(prefix, if IsDirKey(key) then rest[..|rest| - 1] else rest);
    }
    assert "" in Segments(t) && !PlainName("");
  }
}
