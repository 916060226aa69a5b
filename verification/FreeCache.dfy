/** Making room on the cache partition. */
module FreeCache {
  import opened Bytes
  import opened Storage

  const CACHE_TEMP_SOURCE := "/cache/saved.file"

  const DIRS: seq<Path> := ["/cache", "/cache/recovery/otatest"]

  datatype DirEntry = DirEntry(name: string, regular: bool)

  /** What the system shows: the entries of the two directories, and the files that are open;
      None where a directory cannot be read. */
  datatype View = View(listings: seq<Option<seq<DirEntry>>>, open: Option<seq<Path>>)

  ghost predicate Complete(v: View) {
    |v.listings| == |DIRS|
  }

  function PathOf(d: nat, name: string): (r: Path)
    requires d < |DIRS|
  {
    DIRS[d] + "/" + name
  }

  predicate Deletable(d: nat, e: DirEntry)
    requires d < |DIRS|
  {
    e.regular && PathOf(d, e.name) != CACHE_TEMP_SOURCE
  }

  /** The paths of a directory, from entry i on, that may be deleted. */
  function PathsIn(d: nat, es: seq<DirEntry>, i: nat): (r: seq<Path>)
    requires d < |DIRS| && i <= |es|
    decreases |es| - i
  {
    if i == |es| then []
    else (if Deletable(d, es[i]) then [PathOf(d, es[i].name)] else []) + PathsIn(d, es, i + 1)
  }

  function PathsFrom(v: View, d: nat): (r: seq<Path>)
    requires Complete(v) && d <= |DIRS|
    decreases |DIRS| - d
  {
    if d == |DIRS| then []
    else (if v.listings[d].Some? then PathsIn(d, v.listings[d].value, 0) else []) + PathsFrom(v, d + 1)
  }

  /** A growing array of names. */
  class NameList {
    var names: array<Option<Path>>
    var entries: nat

    ghost predicate Valid()
      reads this
    {
      entries <= names.Length && names.Length > 0
    }

    ghost function Contents(): (r: seq<Option<Path>>)
      requires Valid()
      reads this, names
    {
      names[..entries]
    }

    constructor ()
      ensures Valid() && fresh(names) && Contents() == []
    {
      names := new Option<Path>[32](i => None);
      entries := 0;
    }

    /** Appends a name, doubling the array when it is full. */
    method Add(p: Path)
      requires Valid()
      modifies this, names
      ensures Valid() && (names == old(names) || fresh(names))
      ensures Contents() == old(Contents()) + [Some(p)]
    {
      if entries >= names.Length {
        var more := new Option<Path>[2 * names.Length](i requires 0 <= i < 2 * names.Length reads this, names =>
          if i < names.Length then names[i] else None);
        names := more;
      }
      names[entries] := Some(p);
      entries := entries + 1;
    }
  }

  predicate UnderCache(p: Path) {
    |p| >= 7 && p[..7] == "/cache/"
  }

  lemma {:induction false} PathsInUnderCache(d: nat, es: seq<DirEntry>, i: nat)
    requires d < |DIRS| && i <= |es|
    ensures forall p :: p in PathsIn(d, es, i) ==> UnderCache(p) && p != CACHE_TEMP_SOURCE
    decreases |es| - i
  {
    if i < |es| {
      PathsInUnderCache(d, es, i + 1);
      assert DIRS[d] + "/" == (if d == 0 then "/cache/" else "/cache/recovery/otatest/");
      assert PathOf(d, es[i].name)[..7] == "/cache/";
    }
  }

  /** Only files under /cache are considered, and never the saved copy. */
  lemma {:induction false} PathsUnderCache(v: View, d: nat)
    requires Complete(v) && d <= |DIRS|
    ensures forall p :: p in PathsFrom(v, d) ==> UnderCache(p) && p != CACHE_TEMP_SOURCE
    decreases |DIRS| - d
  {
    if d < |DIRS| {
      PathsUnderCache(v, d + 1);
      if v.listings[d].Some? { PathsInUnderCache(d, v.listings[d].value, 0); }
    }
  }

  /** The names with those that are open struck out. */
  ghost function Marked(ps: seq<Path>, open: seq<Path>): (r: seq<Option<Path>>)
    ensures |r| == |ps| && forall j :: 0 <= j < |ps| ==> r[j] == if ps[j] in open then None else Some(ps[j])
  {
    seq(|ps|, j requires 0 <= j < |ps| => if ps[j] in open then None else Some(ps[j]))
  }

  function Named(ps: seq<Path>): (r: seq<Option<Path>>)
    ensures |r| == |ps| && forall j :: 0 <= j < |ps| ==> r[j] == Some(ps[j])
  {
    seq(|ps|, j requires 0 <= j < |ps| => Some(ps[j]))
  }

  /** Strikes out every name that is open. */
  method EliminateOpenFiles(files: array<Option<Path>>, count: nat, open: seq<Path>, ghost ps: seq<Path>)
    requires count <= files.Length && files[..count] == Named(ps) && forall p :: p in ps ==> UnderCache(p)
    modifies files
    ensures files[..count] == Marked(ps, open)
  {
    assert count == |ps| && forall j :: 0 <= j < count ==> files[j] == files[..count][j] == Some(ps[j]);
    var i := 0;
    while i < |open|
      invariant i <= |open|
      invariant forall j :: 0 <= j < count ==> files[j] == if ps[j] in open[..i] then None else Some(ps[j])
    {
      var link := open[i];
      assert forall j :: 0 <= j < count ==> ps[j] in ps && UnderCache(ps[j]);
      if |link| >= 7 && link[..7] == "/cache/" {
        var j := 0;
        while j < count
          invariant j <= count
          invariant forall m :: j <= m < count ==> files[m] == if ps[m] in open[..i] then None else Some(ps[m])
          invariant forall m :: 0 <= m < j ==> files[m] == if ps[m] in open[..i] + [link] then None else Some(ps[m])
        {
          if files[j] == Some(link) { files[j] := None; }
          j := j + 1;
        }
      }
      assert open[..i + 1] == open[..i] + [link];
      i := i + 1;
    }
    assert open[..|open|] == open;
  }

  /** Adds the deletable files of one directory. */
  method AddDirectory(l: NameList, d: nat, es: seq<DirEntry>, ghost ps0: seq<Path>)
    requires d < |DIRS| && l.Valid() && l.Contents() == Named(ps0)
    modifies l, l.names
    ensures l.Valid() && (l.names == old(l.names) || fresh(l.names))
    ensures l.Contents() == Named(ps0 + PathsIn(d, es, 0))
  {
    ghost var ps, all := ps0, ps0 + PathsIn(d, es, 0);
    var i := 0;
    while i < |es|
      invariant i <= |es| && l.Valid() && (l.names == old(l.names) || fresh(l.names))
      invariant l.Contents() == Named(ps) && ps + PathsIn(d, es, i) == all
    {
      if Deletable(d, es[i]) {
        l.Add(PathOf(d, es[i].name));
        ps := ps + [PathOf(d, es[i].name)];
      }
      i := i + 1;
    }
    assert ps == all;
  }

  /** The files that may be deleted, in the order of the directories; open ones are struck out. */
  method FindExpendableFiles(v: View) returns (l: NameList, ok: bool)
    requires Complete(v)
    ensures fresh(l) && fresh(l.names) && l.Valid() && (ok <==> v.open.Some?)
    ensures ok ==> l.Contents() == Marked(PathsFrom(v, 0), v.open.value)
  {
    l := new NameList();
    ghost var ps := [];
    var d := 0;
    while d < |DIRS|
      invariant d <= |DIRS| && l.Valid() && fresh(l) && fresh(l.names)
      invariant l.Contents() == Named(ps) && ps + PathsFrom(v, d) == PathsFrom(v, 0)
    {
      if v.listings[d].Some? {
        AddDirectory(l, d, v.listings[d].value, ps);
        ps := ps + PathsIn(d, v.listings[d].value, 0);
      }
      d := d + 1;
    }
    assert ps == PathsFrom(v, 0);
    if v.open.None? { return l, false; }
    PathsUnderCache(v, 0);
    EliminateOpenFiles(l.names, l.entries, v.open.value, ps);
    return l, true;
  }

  /** The names not struck out. */
  ghost function Left(names: seq<Option<Path>>): (r: seq<Path>) {
    if names == [] then [] else (if names[0].Some? then [names[0].value] else []) + Left(names[1..])
  }

  lemma {:induction false} LeftAppend(names: seq<Option<Path>>, n: Option<Path>)
    ensures Left(names + [n]) == Left(names) + (if n.Some? then [n.value] else [])
  {
    if names == [] {
      assert names + [n] == [n];
    } else {
      LeftAppend(names[1..], n);
      assert (names + [n])[1..] == names[1..] + [n];
    }
  }

  /** The files that can be given up: deletable and not open. */
  ghost function Expendable(v: View): (r: seq<Path>)
    requires Complete(v) && v.open.Some?
  {
    Left(Marked(PathsFrom(v, 0), v.open.value))
  }

  lemma {:induction false} LeftMembers(ps: seq<Path>, open: seq<Path>, p: Path)
    requires p in Left(Marked(ps, open))
    ensures p in ps && p !in open
  {
    if ps != [] {
      assert Marked(ps, open)[1..] == Marked(ps[1..], open);
      if p in Left(Marked(ps[1..], open)) { LeftMembers(ps[1..], open, p); }
    }
  }

  /** What is given up is never the saved copy and never open, and lies under /cache. */
  lemma ExpendableSafe(v: View, p: Path)
    requires Complete(v) && v.open.Some? && p in Expendable(v)
    ensures p != CACHE_TEMP_SOURCE && p !in v.open.value && UnderCache(p)
  {
    LeftMembers(PathsFrom(v, 0), v.open.value, p);
    PathsUnderCache(v, 0);
  }

  /** The name is that of a regular file in one of the two directories. */
  ghost predicate Shown(v: View, p: Path)
    requires Complete(v)
  {
    ShownIn(v, 0, p) || ShownIn(v, 1, p)
  }

  /** What is given up: every regular file of the two directories but the saved copy and those that are open, and
      nothing else. */
  lemma ExpendableExactly(v: View, p: Path)
    requires Complete(v) && v.open.Some?
    ensures p in Expendable(v) <==> Shown(v, p) && p != "/cache/saved.file" && p !in v.open.value
  {
    LeftExactly(PathsFrom(v, 0), v.open.value, p);
    InDirectory(v, 0, p);
    InDirectory(v, 1, p);
    assert PathsFrom(v, 2) == [];
    assert p in PathsFrom(v, 1) <==> v.listings[1].Some? && p in PathsIn(1, v.listings[1].value, 0);
    assert p in PathsFrom(v, 0) <==>
           (v.listings[0].Some? && p in PathsIn(0, v.listings[0].value, 0)) || p in PathsFrom(v, 1);
  }

  ghost predicate ShownIn(v: View, d: nat, p: Path)
    requires Complete(v) && d < 2
  {
    && v.listings[d].Some?
    && exists e :: e in v.listings[d].value && e.regular
                   && p == (if d == 0 then "/cache/" else "/cache/recovery/otatest/") + e.name
  }

  lemma InDirectory(v: View, d: nat, p: Path)
    requires Complete(v) && d < 2
    ensures v.listings[d].Some? && p in PathsIn(d, v.listings[d].value, 0) <==>
            ShownIn(v, d, p) && p != "/cache/saved.file"
  {
    assert DIRS[d] + "/" == if d == 0 then "/cache/" else "/cache/recovery/otatest/";
    if v.listings[d].Some? {
      var es := v.listings[d].value;
      ListedIn(d, es, 0, p);
      forall k | 0 <= k < |es|
        ensures PathOf(d, es[k].name) == (if d == 0 then "/cache/" else "/cache/recovery/otatest/") + es[k].name
      {
      }
      if e :| e in es && e.regular && p == (if d == 0 then "/cache/" else "/cache/recovery/otatest/") + e.name {
        var k :| 0 <= k < |es| && es[k] == e;
        assert ListedAt(d, es, k, p);
      }
    }
  }

  ghost predicate ListedAt(d: nat, es: seq<DirEntry>, k: int, p: Path)
    requires d < |DIRS| && 0 <= k < |es|
  {
    es[k].regular && p == PathOf(d, es[k].name)
  }

  lemma {:induction false} ListedIn(d: nat, es: seq<DirEntry>, i: nat, p: Path)
    requires d < |DIRS| && i <= |es|
    ensures p in PathsIn(d, es, i) <==>
            p != CACHE_TEMP_SOURCE && exists k :: i <= k < |es| && ListedAt(d, es, k, p)
    decreases |es| - i
  {
    hide ListedAt, PathOf;
    if i < |es| {
      ListedIn(d, es, i + 1, p);
      PathsNext(d, es, i, p);
    }
  }

  lemma PathsNext(d: nat, es: seq<DirEntry>, i: nat, p: Path)
    requires d < |DIRS| && i < |es|
    ensures p in PathsIn(d, es, i) <==> (p != CACHE_TEMP_SOURCE && ListedAt(d, es, i, p)) || p in PathsIn(d, es, i + 1)
  {
  }

  lemma {:induction false} LeftExactly(ps: seq<Path>, open: seq<Path>, p: Path)
    ensures p in Left(Marked(ps, open)) <==> p in ps && p !in open
  {
    if ps != [] {
      assert Marked(ps, open)[1..] == Marked(ps[1..], open);
      LeftExactly(ps[1..], open, p);
    }
  }

  /** How much is given up: a front part of what can be, each file while room is short, and all of it if that is not
      enough. ok says whether there is room in the end. */
  ghost predicate MadeRoom(fs: Files, free: Files -> nat, needed: nat, v: View, deleted: seq<Path>, ok: bool)
    requires Complete(v)
  {
    && (ok <==> free(DoAll(fs, Unlinks(deleted))) >= needed)
    && (deleted == [] || (v.open.Some? && deleted <= Expendable(v)))
    && (forall n :: 0 <= n < |deleted| ==> free(DoAll(fs, Unlinks(deleted[..n]))) < needed)
    && (!ok && v.open.Some? ==> deleted == Expendable(v))
  }

  /** That leaves one possibility. */
  lemma RoomOnce(fs: Files, free: Files -> nat, needed: nat, v: View, d: seq<Path>, a: bool, e: seq<Path>, b: bool)
    requires Complete(v) && MadeRoom(fs, free, needed, v, d, a) && MadeRoom(fs, free, needed, v, e, b)
    ensures d == e && a == b
  {
    hide Expendable, Complete;
    if v.open.Some? {
      Fronts(Expendable(v), d, e);
      Fronts(Expendable(v), e, d);
    }
  }

  lemma Fronts<T>(all: seq<T>, a: seq<T>, b: seq<T>)
    requires a <= all && b <= all
    ensures |a| <= |b| ==> a == b[..|a|]
  {
  }

  /** When there is room in the end: if and only if some front part of what can be given up makes enough. */
  lemma RoomExactly(fs: Files, free: Files -> nat, needed: nat, v: View, deleted: seq<Path>, ok: bool)
    requires Complete(v) && MadeRoom(fs, free, needed, v, deleted, ok)
    ensures ok <==>
            || free(fs) >= needed
            || (v.open.Some? &&
                exists n :: 0 <= n <= |Expendable(v)| && free(DoAll(fs, Unlinks(Expendable(v)[..n]))) >= needed)
  {
    hide Expendable, Complete;
    assert DoAll(fs, Unlinks([])) == fs;
    if deleted != [] {
      var n := |deleted|;
      assert Expendable(v)[..n] == deleted;
      if !ok {
        assert forall k :: 0 <= k < n ==> deleted[..k] == Expendable(v)[..k];
      }
    }
    if !ok && v.open.Some? && deleted == [] { assert Expendable(v)[..0] == []; }
    if !ok && deleted != [] { assert deleted[..0] == []; }
  }

  /** Deletes files one by one until enough is free; free tells the room left on /cache. */
  method MakeFreeSpaceOnCache(dev: Device, free: Files -> nat, needed: nat, v: View)
    returns (ok: bool, ghost deleted: seq<Path>)
    requires Complete(v)
    modifies dev
    ensures dev.files == DoAll(old(dev.files), Unlinks(deleted)) && dev.log == old(dev.log) + Unlinks(deleted)
    ensures MadeRoom(old(dev.files), free, needed, v, deleted, ok)
  {
    hide Complete, PathsFrom;
    deleted := [];
    var freeNow := free(dev.files);
    if freeNow >= needed { return true, deleted; }
    var l, found := FindExpendableFiles(v);
    if !found { return false, deleted; }
    ghost var fs, log, all := dev.files, dev.log, Marked(PathsFrom(v, 0), v.open.value);
    if l.entries == 0 {
      assert all == [];
      return false, deleted;
    }
    var i := 0;
    while i < l.entries && freeNow < needed
      invariant i <= l.entries && l.Valid() && l.Contents() == all && freeNow == free(dev.files)
      invariant dev.files == DoAll(fs, Unlinks(deleted)) && dev.log == log + Unlinks(deleted)
                && deleted == Left(all[..i])
      invariant forall n :: 0 <= n < |deleted| ==> free(DoAll(fs, Unlinks(deleted[..n]))) < needed
    {
      assert l.names[i] == all[i] && all[..i + 1] == all[..i] + [all[i]];
      LeftAppend(all[..i], all[i]);
      if l.names[i].Some? {
        ghost var p := all[i].value;
        UnlinksNext(fs, deleted, p);
        dev.Remove(l.names[i].value);
        freeNow := free(dev.files);
        deleted := deleted + [p];
      }
      i := i + 1;
    }
    LeftSplit(all, i);
    assert all[..|all|] == all;
    ok := freeNow >= needed;
  }

  lemma UnlinksNext(fs: Files, ps: seq<Path>, p: Path)
    ensures Unlinks(ps + [p]) == Unlinks(ps) + [Unlink(p)]
    ensures DoAll(fs, Unlinks(ps + [p])) == Do(DoAll(fs, Unlinks(ps)), Unlink(p))
    ensures (ps + [p])[..|ps|] == ps && forall n :: 0 <= n < |ps| ==> (ps + [p])[..n] == ps[..n]
  {
    assert Unlinks(ps + [p]) == Unlinks(ps) + [Unlink(p)];
    DoAllAppend(fs, Unlinks(ps), [Unlink(p)]);
    var f := Do(DoAll(fs, Unlinks(ps)), Unlink(p));
    assert DoAll(DoAll(fs, Unlinks(ps)), [Unlink(p)]) == DoAll(f, []) == f;
  }

  lemma {:induction false} LeftSplit(names: seq<Option<Path>>, i: nat)
    requires i <= |names|
    ensures Left(names[..i]) <= Left(names)
  {
    if i > 0 {
      LeftSplit(names[1..], i - 1);
      assert names[..i][1..] == names[1..][..i - 1];
    }
  }
}
