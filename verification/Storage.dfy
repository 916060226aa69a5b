/** Files on a device that can lose power between any two effects. */
module Storage {
  import opened Bytes

  type Path = string

  type Files = map<Path, seq<Byte>>

  /** The smallest changes a program makes; a write is one effect a byte. */
  datatype Effect =
    | Create(path: Path)            // open for writing, emptying what was there
    | Append(path: Path, b: Byte)
    | Unlink(path: Path)
    | Rename(from: Path, to: Path)

  function Do(fs: Files, e: Effect): (r: Files) {
    match e
    case Create(p) => fs[p := []]
    case Append(p, b) => if p in fs then fs[p := fs[p] + [b]] else fs
    case Unlink(p) => fs - {p}
    case Rename(from, to) => if from in fs then (fs - {from})[to := fs[from]] else fs
  }

  function DoAll(fs: Files, es: seq<Effect>): (r: Files)
    decreases |es|
  {
    if es == [] then fs else DoAll(Do(fs, es[0]), es[1..])
  }

  lemma {:induction false} DoAllAppend(fs: Files, a: seq<Effect>, b: seq<Effect>)
    ensures DoAll(fs, a + b) == DoAll(DoAll(fs, a), b)
    decreases |a|
  {
    if a == [] {
      assert a + b == b;
    } else {
      assert (a + b)[0] == a[0] && (a + b)[1..] == a[1..] + b;
      DoAllAppend(Do(fs, a[0]), a[1..], b);
    }
  }

  predicate Touches(e: Effect, p: Path) {
    match e
    case Create(q) => q == p
    case Append(q, _) => q == p
    case Unlink(q) => q == p
    case Rename(from, to) => from == p || to == p
  }

  predicate Untouched(es: seq<Effect>, p: Path) {
    forall i :: 0 <= i < |es| ==> !Touches(es[i], p)
  }

  /** p is in both with the same contents, or in neither. */
  predicate SameFile(a: Files, b: Files, p: Path) {
    (p in a <==> p in b) && (p in a ==> a[p] == b[p])
  }

  lemma {:induction false} UntouchedSame(fs: Files, es: seq<Effect>, p: Path)
    requires Untouched(es, p)
    ensures SameFile(fs, DoAll(fs, es), p)
    decreases |es|
  {
    if es != [] {
      assert !Touches(es[0], p);
      UntouchedSame(Do(fs, es[0]), es[1..], p);
    }
  }

  function Appends(p: Path, data: seq<Byte>): (r: seq<Effect>)
    ensures |r| == |data| && forall i :: 0 <= i < |r| ==> r[i] == Append(p, data[i])
  {
    seq(|data|, i requires 0 <= i < |data| => Append(p, data[i]))
  }

  /** Writing a whole file. */
  function WriteFile(p: Path, data: seq<Byte>): (r: seq<Effect>) {
    [Create(p)] + Appends(p, data)
  }

  function Unlinks(ps: seq<Path>): (r: seq<Effect>)
    ensures |r| == |ps| && forall i :: 0 <= i < |r| ==> r[i] == Unlink(ps[i])
  {
    seq(|ps|, i requires 0 <= i < |ps| => Unlink(ps[i]))
  }

  /** Appending to a file changes nothing else. */
  lemma {:induction false} AppendsLeave(fs: Files, p: Path, data: seq<Byte>)
    requires p in fs
    ensures DoAll(fs, Appends(p, data)) == fs[p := fs[p] + data]
  {
    if data == [] {
      assert fs[p] + [] == fs[p];
    } else {
      assert Appends(p, data)[1..] == Appends(p, data[1..]);
      AppendsLeave(Do(fs, Append(p, data[0])), p, data[1..]);
      assert fs[p] + [data[0]] + data[1..] == fs[p] + data;
    }
  }

  lemma WriteFileLeaves(fs: Files, p: Path, data: seq<Byte>)
    ensures DoAll(fs, WriteFile(p, data)) == fs[p := data]
  {
    DoAllAppend(fs, [Create(p)], Appends(p, data));
    assert DoAll(fs, [Create(p)]) == DoAll(Do(fs, Create(p)), []) == fs[p := []];
    AppendsLeave(fs[p := []], p, data);
    assert [] + data == data;
  }

  lemma WriteFileWrites(fs: Files, p: Path, data: seq<Byte>)
    ensures var r := DoAll(fs, WriteFile(p, data)); p in r && r[p] == data
  {
    WriteFileLeaves(fs, p, data);
  }

  lemma {:induction false} UnlinksLeave(fs: Files, ps: seq<Path>)
    ensures DoAll(fs, Unlinks(ps)) == fs - set p | p in ps
  {
    if ps != [] {
      assert Unlinks(ps)[1..] == Unlinks(ps[1..]);
      UnlinksLeave(fs - {ps[0]}, ps[1..]);
      assert (set p | p in ps) == {ps[0]} + set p | p in ps[1..];
    }
  }

  lemma DoOne(fs: Files, e: Effect)
    ensures DoAll(fs, [e]) == Do(fs, e)
  {
    assert DoAll(Do(fs, e), []) == Do(fs, e);
  }

  /** A device; unless it is reliable, its operations may fail. The log holds all effects so far. */
  class Device {
    var files: Files
    ghost var log: seq<Effect>
    const reliable: bool

    constructor (files: Files, reliable: bool)
      ensures this.files == files && this.reliable == reliable && log == []
    {
      this.files := files;
      this.reliable := reliable;
      log := [];
    }

    method Perform(e: Effect) returns (ok: bool)
      modifies this
      ensures reliable ==> ok
      ensures if ok then files == Do(old(files), e) && log == old(log) + [e] else files == old(files) && log == old(log)
    {
      if !reliable {
        if * { return false; }
      }
      files := Do(files, e);
      log := log + [e];
      return true;
    }

    /** Removes a file; the result is not looked at. */
    method Remove(p: Path)
      modifies this
      ensures files == Do(old(files), Unlink(p)) && log == old(log) + [Unlink(p)]
    {
      files := Do(files, Unlink(p));
      log := log + [Unlink(p)];
    }

    /** Sets mode and owner, which are not part of this model; can only fail. */
    method Stamp() returns (ok: bool)
      ensures reliable ==> ok
    {
      ok := true;
      if !reliable {
        if * { ok := false; }
      }
    }

    /** Appends to a file; m bytes are taken. */
    method AppendAll(p: Path, data: seq<Byte>) returns (ok: bool, ghost m: nat)
      modifies this
      ensures reliable ==> ok
      ensures m <= |data| && (ok <==> m == |data|) && Did(old(files), old(log), Appends(p, data[..m]))
    {
      ghost var fs, log0 := files, log;
      m := 0;
      DidNone(fs, log0);
      var i := 0;
      while i < |data|
        invariant 0 <= i == m <= |data| && Did(fs, log0, Appends(p, data[..m]))
      {
        AppendsNext(fs, log0, p, data, m);
        ok := Perform(Append(p, data[i]));
        if !ok { return false, m; }
        i, m := i + 1, m + 1;
      }
      return true, m;
    }

    /** Writes a whole file; n effects take place. */
    method WriteOut(p: Path, data: seq<Byte>) returns (ok: bool, ghost n: nat)
      modifies this
      ensures reliable ==> ok
      ensures n <= |WriteFile(p, data)| && (ok ==> n == |WriteFile(p, data)|)
              && Did(old(files), old(log), WriteFile(p, data)[..n])
    {
      ghost var fs, log0 := files, log;
      DidNone(fs, log0);
      ok := Perform(Create(p));
      if !ok { return false, 0; }
      DidNext(fs, log0, [Create(p)], 0);
      ghost var m;
      ok, m := AppendAll(p, data);
      DidMore(fs, log0, [Create(p)], Appends(p, data[..m]));
      n := 1 + m;
      assert WriteFile(p, data)[..n] == [Create(p)] + Appends(p, data[..m]);
    }

    /** Since the state fs and log0 the effects es have taken place, and nothing else. */
    ghost predicate Did(fs: Files, log0: seq<Effect>, es: seq<Effect>)
      reads this
    {
      files == DoAll(fs, es) && log == log0 + es
    }
  }

  lemma DidNone(fs: Files, log0: seq<Effect>)
    ensures log0 + [] == log0 && DoAll(fs, []) == fs
  {
  }

  lemma AppendsNone(p: Path)
    ensures Appends(p, []) == []
  {
  }

  lemma AppendsJoin(p: Path, a: seq<Byte>, b: seq<Byte>)
    ensures Appends(p, a) + Appends(p, b) == Appends(p, a + b)
  {
  }

  /** One more byte. */
  lemma AppendsNext(fs: Files, log0: seq<Effect>, p: Path, data: seq<Byte>, m: nat)
    requires m < |data|
    ensures DoAll(fs, Appends(p, data[..m + 1])) == Do(DoAll(fs, Appends(p, data[..m])), Append(p, data[m]))
    ensures log0 + Appends(p, data[..m + 1]) == (log0 + Appends(p, data[..m])) + [Append(p, data[m])]
  {
    var es := Appends(p, data[..m + 1]);
    assert es[..m] == Appends(p, data[..m]) && es[..m + 1] == es;
    DidNext(fs, log0, es, m);
  }

  /** One more of the effects es. */
  lemma DidNext(fs: Files, log0: seq<Effect>, es: seq<Effect>, n: nat)
    requires n < |es|
    ensures es[..0] == [] && log0 + [] == log0
    ensures es[..n + 1] == es[..n] + [es[n]] && DoAll(fs, es[..n + 1]) == Do(DoAll(fs, es[..n]), es[n])
    ensures log0 + es[..n + 1] == (log0 + es[..n]) + [es[n]]
  {
    assert es[..n + 1] == es[..n] + [es[n]];
    DoAllAppend(fs, es[..n], [es[n]]);
    var f := Do(DoAll(fs, es[..n]), es[n]);
    assert DoAll(DoAll(fs, es[..n]), [es[n]]) == DoAll(f, []) == f;
  }

  /** The effects a and then b. */
  lemma DidMore(fs: Files, log0: seq<Effect>, a: seq<Effect>, b: seq<Effect>)
    ensures DoAll(fs, a + b) == DoAll(DoAll(fs, a), b) && (log0 + a) + b == log0 + (a + b)
  {
    DoAllAppend(fs, a, b);
  }
}
