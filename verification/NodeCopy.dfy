/** Copying a parse tree into one block in two passes: the first counts, the second copies. */
module NodeCopy {
  import opened Bytes
  import opened NodeLayout

  /** A struct's place in the block. */
  datatype Extent = Extent(at: nat, len: nat)

  /** The structs lie one behind the other, from the start of the block to end. */
  predicate Tiled(extents: seq<Extent>, end: nat) {
    if extents == [] then end == 0
    else
      var last := extents[|extents| - 1];
      last.len > 0 && last.at + last.len == end && Tiled(extents[..|extents| - 1], last.at)
  }

  /** No two structs overlap, and all end before end. */
  lemma {:induction false} TiledApart(extents: seq<Extent>, end: nat, i: nat, j: nat)
    requires Tiled(extents, end) && i < j < |extents|
    ensures extents[i].at + extents[i].len <= extents[j].at && extents[j].at + extents[j].len <= end
    decreases |extents|
  {
    var k := |extents| - 1;
    var rest := extents[..k];
    assert rest[i] == extents[i];
    if j < k {
      assert rest[j] == extents[j];
      TiledApart(rest, extents[k].at, i, j);
    } else {
      TiledBelow(rest, extents[k].at, i);
    }
  }

  lemma {:induction false} TiledBelow(extents: seq<Extent>, end: nat, i: nat)
    requires Tiled(extents, end) && i < |extents|
    ensures extents[i].at + extents[i].len <= end
    decreases |extents|
  {
    var k := |extents| - 1;
    if i < k {
      assert extents[..k][i] == extents[i];
      TiledBelow(extents[..k], extents[k].at, i);
    }
  }

  /** Two places that are not the same have nothing in common. */
  lemma PlacesApart(extents: seq<Extent>, end: nat, e: Extent, e': Extent)
    requires Tiled(extents, end) && e in extents && e' in extents && e != e'
    ensures e.at + e.len <= e'.at || e'.at + e'.len <= e.at
  {
    var i :| 0 <= i < |extents| && extents[i] == e;
    var j :| 0 <= j < |extents| && extents[j] == e';
    if i < j { TiledApart(extents, end, i, j); } else { TiledApart(extents, end, j, i); }
  }

  // ----- The block while it is filled -----

  /** Where the next struct and the next text go, what has been written, and the places given to structs. */
  datatype Block = Block(block: nat, strings: nat, mem: Memory, extents: seq<Extent>)

  /** What memory happens to hold where a struct has its expfname. */
  type Junk = nat -> Ptr

  /** The places of the structs follow each other, and every struct and link is written at the start of a
      place of its own size. The field expfname is never written. */
  predicate Placed(z: Sizes, junk: Junk, b: Block) {
    && Tiled(b.extents, b.block)
    && (forall k :: k in b.mem.structs ==>
          && k < b.block && Extent(k, SizeOf(z, b.mem.structs[k])) in b.extents
          && (b.mem.structs[k].FileS? ==> b.mem.structs[k].expfname == junk(k)))
    && (forall k :: k in b.mem.members ==> k < b.block && Extent(k, z.nodelist) in b.extents)
    && (forall k :: k in b.mem.nexts ==> k < b.block && Extent(k, z.nodelist) in b.extents)
    && (forall k :: k in b.mem.chars ==> k < b.strings)
  }

  /** From b to b' nothing that was written changed, and what was written lies in the parts taken meanwhile. */
  predicate Step(b: Block, b': Block) {
    && b.block <= b'.block && b.strings <= b'.strings && Grows(b.mem, b'.mem)
    && (forall e :: e in b.extents ==> e in b'.extents)
    && (forall k :: k in b'.mem.structs && k !in b.mem.structs ==> b.block <= k < b'.block)
    && (forall k :: k in b'.mem.members && k !in b.mem.members ==> b.block <= k < b'.block)
    && (forall k :: k in b'.mem.nexts && k !in b.mem.nexts ==> b.block <= k < b'.block)
    && (forall k :: k in b'.mem.chars && k !in b.mem.chars ==> b.strings <= k < b'.strings)
  }

  lemma Stay(b: Block)
    ensures Step(b, b)
  {
  }

  lemma Then(b: Block, b': Block, b'': Block)
    requires Step(b, b') && Step(b', b'')
    ensures Step(b, b'') && b.block <= b'.block <= b''.block
  {
  }

  /** A copy made before a step is one after it. */
  lemma Later(b: Block, b': Block, b'': Block, p: Ptr, t: Tree)
    requires Step(b, b') && Step(b', b'') && IsCopy(b'.mem, p, t)
    ensures Step(b, b'') && IsCopy(b''.mem, p, t)
  {
    hide IsCopy;
    Then(b, b', b'');
    CopyGrows(b'.mem, b''.mem, p, t);
  }

  lemma LaterList(b: Block, b': Block, b'': Block, p: Ptr, ns: seq<Tree>)
    requires Step(b, b') && Step(b', b'') && ListCopied(b'.mem, p, ns)
    ensures Step(b, b'') && ListCopied(b''.mem, p, ns)
  {
    hide ListCopied;
    Then(b, b', b'');
    ListGrows(b'.mem, b''.mem, p, ns);
  }

  lemma LaterText(b: Block, b': Block, b'': Block, s: CString, q: nat)
    requires Step(b, b') && Step(b', b'') && TextLies(b'.mem.chars, s, q)
    ensures Step(b, b'') && TextLies(b''.mem.chars, s, q)
  {
    hide TextLies;
    Then(b, b', b'');
    TextGrows(b'.mem, b''.mem, s, q);
  }

  /** A place taken before a step is still there after it, and nothing was written to it. */
  lemma PlaceStays(b: Block, b': Block, k: nat, len: Size)
    requires Step(b, b') && k < b.block && Extent(k, len) in b.extents
    ensures k < b'.block && Extent(k, len) in b'.extents
    ensures k !in b.mem.structs ==> k !in b'.mem.structs
    ensures k !in b.mem.members ==> k !in b'.mem.members
    ensures k !in b.mem.nexts ==> k !in b'.mem.nexts
    ensures k in b.mem.nexts ==> k in b'.mem.nexts && b'.mem.nexts[k] == b.mem.nexts[k]
  {
  }

  // ----- One write -----

  function Taken(b: Block, len: Size): (r: Block) {
    b.(block := b.block + len, extents := b.extents + [Extent(b.block, len)])
  }

  /** A place that is taken is new: nothing has been written there. */
  lemma TakenPlaced(z: Sizes, junk: Junk, b: Block, len: Size)
    requires Placed(z, junk, b)
    ensures Placed(z, junk, Taken(b, len)) && Step(b, Taken(b, len)) && Extent(b.block, len) in Taken(b, len).extents
    ensures b.block !in b.mem.structs && b.block !in b.mem.members && b.block !in b.mem.nexts
  {
    assert (b.extents + [Extent(b.block, len)])[..|b.extents|] == b.extents;
  }

  /** Something was written to the places taken since b0, and nothing over anything. */
  predicate Wrote(b0: Block, b: Block, b': Block) {
    && b'.block == b.block && b'.strings == b.strings && b'.extents == b.extents && Grows(b.mem, b'.mem)
    && (forall k :: k in b'.mem.structs && k !in b.mem.structs ==> b0.block <= k < b.block)
    && (forall k :: k in b'.mem.members && k !in b.mem.members ==> b0.block <= k < b.block)
    && (forall k :: k in b'.mem.nexts && k !in b.mem.nexts ==> b0.block <= k < b.block)
    && b'.mem.chars == b.mem.chars
  }

  lemma WroteStep(b0: Block, b: Block, b': Block)
    requires Step(b0, b) && Wrote(b0, b, b')
    ensures Step(b0, b') && Grows(b.mem, b'.mem)
  {
  }

  function StructPut(b: Block, k: nat, c: Struct): (r: Block) {
    b.(mem := b.mem.(structs := b.mem.structs[k := c]))
  }

  lemma StructPlaced(z: Sizes, junk: Junk, b0: Block, b: Block, k: nat, c: Struct)
    requires Placed(z, junk, b) && Step(b0, b) && b0.block <= k < b.block && k !in b.mem.structs
    requires Extent(k, SizeOf(z, c)) in b.extents && (c.FileS? ==> c.expfname == junk(k))
    ensures Placed(z, junk, StructPut(b, k, c)) && Step(b0, StructPut(b, k, c)) && Grows(b.mem, StructPut(b, k, c).mem)
  {
    hide Tiled, Step;
    WroteStep(b0, b, StructPut(b, k, c));
  }

  function MemberPut(b: Block, k: nat, p: Ptr): (r: Block) {
    b.(mem := b.mem.(members := b.mem.members[k := p]))
  }

  lemma MemberPlaced(z: Sizes, junk: Junk, b0: Block, b: Block, k: nat, p: Ptr)
    requires Placed(z, junk, b) && Step(b0, b) && b0.block <= k < b.block && k !in b.mem.members
    requires Extent(k, z.nodelist) in b.extents
    ensures Placed(z, junk, MemberPut(b, k, p)) && Step(b0, MemberPut(b, k, p)) && Grows(b.mem, MemberPut(b, k, p).mem)
  {
    hide Tiled, Step;
    WroteStep(b0, b, MemberPut(b, k, p));
  }

  function NextPut(b: Block, k: nat, p: Ptr): (r: Block) {
    b.(mem := b.mem.(nexts := b.mem.nexts[k := p]))
  }

  lemma NextPlaced(z: Sizes, junk: Junk, b0: Block, b: Block, k: nat, p: Ptr)
    requires Placed(z, junk, b) && Step(b0, b) && b0.block <= k < b.block && k !in b.mem.nexts
    requires Extent(k, z.nodelist) in b.extents
    ensures Placed(z, junk, NextPut(b, k, p)) && Step(b0, NextPut(b, k, p)) && Grows(b.mem, NextPut(b, k, p).mem)
  {
    hide Tiled, Step;
    WroteStep(b0, b, NextPut(b, k, p));
  }

  function CharPut(b: Block, c: char): (r: Block) {
    b.(strings := b.strings + 1, mem := b.mem.(chars := b.mem.chars[b.strings := c]))
  }

  lemma CharPlaced(z: Sizes, junk: Junk, b0: Block, b: Block, c: char)
    requires Placed(z, junk, b) && Step(b0, b)
    ensures Placed(z, junk, CharPut(b, c)) && Step(b0, CharPut(b, c))
  {
    hide Tiled;
  }

  // ----- A list while it is linked -----

  /** The links lead from start through the members in order; the last of them points nowhere yet. */
  predicate Linked(m: Memory, start: Ptr, links: seq<nat>, ns: seq<Tree>) {
    && |links| == |ns| && start == (if links == [] then None else Some(links[0]))
    && (forall i :: 0 <= i < |links| ==> links[i] in m.members && IsCopy(m, m.members[links[i]], ns[i]))
    && (forall i {:trigger links[i]} :: 0 <= i < |links| - 1 ==>
          links[i] in m.nexts && m.nexts[links[i]] == Some(links[i + 1]))
  }

  /** The pointer that the next link goes to: of the last link, or the start of the list. */
  function LastLink(links: seq<nat>): (r: Ptr) {
    if links == [] then None else Some(links[|links| - 1])
  }

  /** The link at k waits for its next pointer. */
  predicate Open(z: Sizes, b: Block, b': Block, k: nat) {
    b.block <= k < b'.block && k !in b'.mem.nexts && Extent(k, z.nodelist) in b'.extents
  }

  lemma LinkedNone(m: Memory)
    ensures Linked(m, None, [], [])
  {
  }

  lemma LinkedGrows(m: Memory, m': Memory, start: Ptr, links: seq<nat>, ns: seq<Tree>)
    requires Linked(m, start, links, ns) && Grows(m, m')
    ensures Linked(m', start, links, ns)
  {
    hide IsCopy;
    forall i | 0 <= i < |links| ensures links[i] in m'.members && IsCopy(m', m'.members[links[i]], ns[i]) {
      CopyGrows(m, m', m.members[links[i]], ns[i]);
    }
  }

  lemma LinkedLater(b: Block, b': Block, start: Ptr, links: seq<nat>, ns: seq<Tree>)
    requires Linked(b.mem, start, links, ns) && Step(b, b')
    ensures Linked(b'.mem, start, links, ns)
  {
    hide Linked;
    LinkedGrows(b.mem, b'.mem, start, links, ns);
  }

  /** One more link. */
  lemma LinkedNext(m: Memory, start: Ptr, links: seq<nat>, ns: seq<Tree>, here: nat, n: Tree)
    requires Linked(m, start, links, ns) && here in m.members && IsCopy(m, m.members[here], n)
    requires links != [] ==> links[|links| - 1] in m.nexts && m.nexts[links[|links| - 1]] == Some(here)
    ensures Linked(m, if links == [] then Some(here) else start, links + [here], ns + [n])
  {
    hide IsCopy;
  }

  /** When the last link points to null, the list is a copy. */
  lemma {:induction false} ListClosed(m: Memory, start: Ptr, links: seq<nat>, ns: seq<Tree>)
    requires Linked(m, start, links, ns)
    requires links != [] ==> links[|links| - 1] in m.nexts && m.nexts[links[|links| - 1]] == None
    ensures ListCopied(m, start, ns)
    decreases |ns|
  {
    hide IsCopy;
    if links != [] {
      var rest := links[1..];
      assert forall i :: 0 <= i < |rest| ==> rest[i] == links[i + 1] && ns[1..][i] == ns[i + 1];
      assert rest != [] ==> rest[|rest| - 1] == links[|links| - 1];
      ListClosed(m, m.nexts[links[0]], rest, ns[1..]);
    }
  }

  /** The first k characters of s are saved from rtn on. */
  predicate Saved(chars: map<nat, char>, s: string, rtn: nat, k: nat) {
    k <= |s| && forall q :: rtn <= q < rtn + k ==> q in chars && chars[q] == s[q - rtn]
  }

  lemma SavedNext(chars: map<nat, char>, s: string, rtn: nat, k: nat)
    requires Saved(chars, s, rtn, k) && k < |s|
    ensures Saved(chars[rtn + k := s[k]], s, rtn, k + 1)
  {
  }

  lemma SavedEnd(chars: map<nat, char>, s: CString, rtn: nat)
    requires Saved(chars, s, rtn, |s|)
    ensures TextLies(chars[rtn + |s| := NUL], s, rtn)
  {
  }

  class Copier {
    const z: Sizes
    const junk: Junk
    var funcblocksize: nat
    var funcstringsize: nat
    // where the next struct and the next text go
    var funcblock: nat
    var funcstring: nat
    var mem: Memory
    ghost var extents: seq<Extent>

    constructor (z: Sizes, junk: Junk)
      ensures this.z == z && this.junk == junk
    {
      this.z, this.junk := z, junk;
      funcblocksize, funcstringsize, funcblock, funcstring := 0, 0, 0, 0;
      mem, extents := Memory(map[], map[], map[], map[]), [];
    }

    // ----- The first pass -----

    method CalcSize(n: Tree)
      modifies this`funcblocksize, this`funcstringsize
      ensures funcblocksize == old(funcblocksize) + BlockSize(z, n)
              && funcstringsize == old(funcstringsize) + StringSize(n)
      decreases n
    {
      if n.Null? { return; }
      TableRight(z, n);
      funcblocksize := funcblocksize + NodeSizes(z)[Type(n)];
      hide NodeSizes, Type, StructSize;
      match n
      case Binary(_, ch1, ch2) =>
        CalcSize(ch2);
        CalcSize(ch1);
      case Cmd(_, args, redirect) =>
        CalcSize(redirect);
        CalcSize(args);
      case Pipe(_, cmdlist) =>
        SizeNodeList(cmdlist);
      case Redir(_, n', redirect) =>
        CalcSize(redirect);
        CalcSize(n');
      case If(test, ifpart, elsepart) =>
        CalcSize(elsepart);
        CalcSize(ifpart);
        CalcSize(test);
      case For(args, body, name) =>
        funcstringsize := funcstringsize + |name| + 1;
        CalcSize(body);
        CalcSize(args);
      case Case(expr, cases) =>
        CalcSize(cases);
        CalcSize(expr);
      case Clist(next, pattern, body) =>
        CalcSize(body);
        CalcSize(pattern);
        CalcSize(next);
      case Arg(_, next, text, backquote) =>
        SizeNodeList(backquote);
        funcstringsize := funcstringsize + |text| + 1;
        CalcSize(next);
      case File(_, next, _, fname, _) =>
        CalcSize(fname);
        CalcSize(next);
      case Dup(_, next, _, _, vname) =>
        CalcSize(vname);
        CalcSize(next);
      case Here(_, next, _, doc) =>
        CalcSize(doc);
        CalcSize(next);
      case Not(com) =>
        CalcSize(com);
    }

    method SizeNodeList(ns: seq<Tree>)
      modifies this`funcblocksize, this`funcstringsize
      ensures funcblocksize == old(funcblocksize) + ListSize(z, ns)
              && funcstringsize == old(funcstringsize) + ListStrings(ns)
      decreases ns
    {
      hide BlockSize, StringSize;
      for k := 0 to |ns|
        invariant funcblocksize + ListSize(z, ns[k..]) == old(funcblocksize) + ListSize(z, ns)
        invariant funcstringsize + ListStrings(ns[k..]) == old(funcstringsize) + ListStrings(ns)
      {
        assert ns[k..][1..] == ns[k + 1..];
        funcblocksize := funcblocksize + z.nodelist;
        CalcSize(ns[k]);
      }
    }

    // ----- The second pass -----

    ghost function State(): (r: Block)
      reads this
    {
      Block(funcblock, funcstring, mem, extents)
    }

    /** There is room for so much more. */
    ghost predicate Room(block: nat, strings: nat)
      reads this
    {
      funcblock + block <= funcblocksize <= funcstring && funcstring + strings <= funcblocksize + funcstringsize
    }

    /** A struct's place is taken from the block. */
    method Reserve(len: Size) returns (at: nat)
      requires Room(len, 0)
      modifies this`funcblock, this`extents
      ensures at == old(funcblock) && State() == Taken(old(State()), len)
    {
      at := funcblock;
      funcblock := funcblock + len;
      extents := extents + [Extent(at, len)];
    }

    /** nodesavestr: the text and its end. */
    method NodeSaveStr(s: CString) returns (rtn: nat)
      requires Placed(z, junk, State()) && Room(0, |s| + 1)
      modifies this`funcstring, this`mem
      ensures Placed(z, junk, State()) && Step(old(State()), State())
      ensures rtn == old(funcstring) && funcstring == rtn + |s| + 1 && TextLies(mem.chars, s, rtn)
    {
      hide Placed, Step, TextLies;
      rtn := funcstring;
      ghost var b := State();
      Stay(b);
      var k := 0;
      while k < |s|
        invariant 0 <= k <= |s| && funcstring == rtn + k && Saved(mem.chars, s, rtn, k)
        invariant Placed(z, junk, State()) && Step(b, State())
      {
        SavedNext(mem.chars, s, rtn, k);
        CharPlaced(z, junk, b, State(), s[k]);
        mem := mem.(chars := mem.chars[funcstring := s[k]]);
        funcstring := funcstring + 1;
        k := k + 1;
      }
      SavedEnd(mem.chars, s, rtn);
      CharPlaced(z, junk, b, State(), NUL);
      mem := mem.(chars := mem.chars[funcstring := NUL]);
      funcstring := funcstring + 1;
    }

    /** A copy of the tree, its struct first, then what is below it. */
    method CopyNode(n: Tree) returns (p: Ptr)
      requires Placed(z, junk, State()) && Room(BlockSize(z, n), StringSize(n))
      modifies this`funcblock, this`funcstring, this`mem, this`extents
      ensures Placed(z, junk, State()) && Step(old(State()), State())
      ensures funcblock == old(funcblock) + BlockSize(z, n) && funcstring == old(funcstring) + StringSize(n)
      ensures p == (if n.Null? then None else Some(old(funcblock))) && IsCopy(mem, p, n)
      decreases n, 1
    {
      hide Tiled, Grows, ListCopied, SizeOf;
      ghost var b := State();
      Stay(b);
      if n.Null? { return None; }
      hide Placed, Step, FieldsCopied, NodeSizes, Type, Below, StringSize;
      TableRight(z, n);
      TakenPlaced(z, junk, b, NodeSizes(z)[Type(n)]);
      var new_ := Reserve(NodeSizes(z)[Type(n)]);
      ghost var b1 := State();
      var cell := CopyFields(n, new_);
      ghost var b2 := State();
      Then(b, b1, b2);
      PlaceStays(b1, b2, new_, StructSize(z, n));
      StructPlaced(z, junk, b, b2, new_, cell);
      FieldsGrow(mem, StructPut(b2, new_, cell).mem, cell, n);
      mem := mem.(structs := mem.structs[new_ := cell]);
      p := Some(new_);
    }

    /** The fields of the struct at at: the pointers are to copies. */
    method CopyFields(n: Tree, at: nat) returns (cell: Struct)
      requires Placed(z, junk, State()) && Room(Below(z, n), StringSize(n)) && !n.Null?
      modifies this`funcblock, this`funcstring, this`mem, this`extents
      ensures Placed(z, junk, State()) && Step(old(State()), State())
      ensures funcblock == old(funcblock) + Below(z, n) && funcstring == old(funcstring) + StringSize(n)
      ensures FieldsCopied(mem, cell, n) && SizeOf(z, cell) == StructSize(z, n)
      ensures cell.FileS? ==> cell.expfname == junk(at)
      decreases n, 0, 1
    {
      hide Placed, Step, IsCopy, ListCopied, TextLies, BlockSize, ListSize, ListStrings;
      ghost var b := State();
      match n
      case Cmd(backgnd, args, redirect) =>
        var pr := CopyNode(redirect);
        ghost var b1 := State();
        var pa := CopyNode(args);
        Later(b, b1, State(), pr, redirect);
        cell := CmdS(backgnd, pa, pr);
      case Pipe(backgnd, cmdlist) =>
        var pl := CopyNodeList(cmdlist);
        cell := PipeS(backgnd, pl);
      case Redir(k, n', redirect) =>
        var pr := CopyNode(redirect);
        ghost var b1 := State();
        var pn := CopyNode(n');
        Later(b, b1, State(), pr, redirect);
        cell := RedirS(k, pn, pr);
      case Not(com) =>
        var pc := CopyNode(com);
        cell := NotS(pc);
      case Binary(_, _, _) => cell := CopyControl(n, at);
      case If(_, _, _) => cell := CopyControl(n, at);
      case Case(_, _) => cell := CopyControl(n, at);
      case For(_, _, _) => cell := CopyNamed(n, at);
      case Arg(_, _, _, _) => cell := CopyNamed(n, at);
      case Clist(_, _, _) => cell := CopyClause(n, at);
      case File(_, _, _, _, _) => cell := CopyRedirection(n, at);
      case Dup(_, _, _, _, _) => cell := CopyRedirection(n, at);
      case Here(_, _, _, _) => cell := CopyRedirection(n, at);
    }

    /** The fields of the structs that control the flow. */
    method CopyControl(n: Tree, at: nat) returns (cell: Struct)
      requires Placed(z, junk, State()) && Room(Below(z, n), StringSize(n))
      requires n.Binary? || n.If? || n.Case?
      modifies this`funcblock, this`funcstring, this`mem, this`extents
      ensures Placed(z, junk, State()) && Step(old(State()), State())
      ensures funcblock == old(funcblock) + Below(z, n) && funcstring == old(funcstring) + StringSize(n)
      ensures FieldsCopied(mem, cell, n) && SizeOf(z, cell) == StructSize(z, n)
      ensures cell.FileS? ==> cell.expfname == junk(at)
      decreases n, 0, 0
    {
      hide Placed, Step, IsCopy, ListCopied, TextLies, BlockSize, ListSize, ListStrings;
      ghost var b := State();
      match n
      case Binary(k, ch1, ch2) =>
        var p2 := CopyNode(ch2);
        ghost var b1 := State();
        var p1 := CopyNode(ch1);
        Later(b, b1, State(), p2, ch2);
        cell := BinaryS(k, p1, p2);
      case If(test, ifpart, elsepart) =>
        var pe := CopyNode(elsepart);
        ghost var b1 := State();
        var pi := CopyNode(ifpart);
        ghost var b2 := State();
        Later(b, b1, b2, pe, elsepart);
        var pt := CopyNode(test);
        Later(b, b2, State(), pe, elsepart);
        Later(b, b2, State(), pi, ifpart);
        cell := IfS(pt, pi, pe);
      case Case(expr, cases) =>
        var pc := CopyNode(cases);
        ghost var b1 := State();
        var pe := CopyNode(expr);
        Later(b, b1, State(), pc, cases);
        cell := CaseS(pe, pc);
    }

    /** The fields of a clause of a case. */
    method CopyClause(n: Tree, at: nat) returns (cell: Struct)
      requires Placed(z, junk, State()) && Room(Below(z, n), StringSize(n)) && n.Clist?
      modifies this`funcblock, this`funcstring, this`mem, this`extents
      ensures Placed(z, junk, State()) && Step(old(State()), State())
      ensures funcblock == old(funcblock) + Below(z, n) && funcstring == old(funcstring) + StringSize(n)
      ensures FieldsCopied(mem, cell, n) && SizeOf(z, cell) == StructSize(z, n)
      ensures cell.FileS? ==> cell.expfname == junk(at)
      decreases n, 0, 0
    {
      hide Placed, Step, IsCopy, ListCopied, TextLies, BlockSize, ListSize, ListStrings;
      ghost var b := State();
      match n
      case Clist(next, pattern, body) =>
        var pb := CopyNode(body);
        ghost var b1 := State();
        var pp := CopyNode(pattern);
        ghost var b2 := State();
        Later(b, b1, b2, pb, body);
        var pn := CopyNode(next);
        Later(b, b2, State(), pb, body);
        Later(b, b2, State(), pp, pattern);
        cell := ClistS(pn, pp, pb);
    }

    /** The fields of the structs that hold a text. */
    method CopyNamed(n: Tree, at: nat) returns (cell: Struct)
      requires Placed(z, junk, State()) && Room(Below(z, n), StringSize(n)) && (n.For? || n.Arg?)
      modifies this`funcblock, this`funcstring, this`mem, this`extents
      ensures Placed(z, junk, State()) && Step(old(State()), State())
      ensures funcblock == old(funcblock) + Below(z, n) && funcstring == old(funcstring) + StringSize(n)
      ensures FieldsCopied(mem, cell, n) && SizeOf(z, cell) == StructSize(z, n)
      ensures cell.FileS? ==> cell.expfname == junk(at)
      decreases n, 0, 0
    {
      hide Placed, Step, IsCopy, ListCopied, TextLies, BlockSize, ListSize, ListStrings;
      ghost var b := State();
      match n
      case For(args, body, name) =>
        var q := NodeSaveStr(name);
        ghost var b1 := State();
        var pb := CopyNode(body);
        ghost var b2 := State();
        LaterText(b, b1, b2, name, q);
        var pa := CopyNode(args);
        LaterText(b, b2, State(), name, q);
        Later(b, b2, State(), pb, body);
        cell := ForS(pa, pb, q);
      case Arg(k, next, text, backquote) =>
        var pl := CopyNodeList(backquote);
        ghost var b1 := State();
        var q := NodeSaveStr(text);
        ghost var b2 := State();
        LaterList(b, b1, b2, pl, backquote);
        var pn := CopyNode(next);
        LaterList(b, b2, State(), pl, backquote);
        LaterText(b, b2, State(), text, q);
        cell := ArgS(k, pn, q, pl);
    }

    /** The fields of redirections. */
    method CopyRedirection(n: Tree, at: nat) returns (cell: Struct)
      requires Placed(z, junk, State()) && Room(Below(z, n), StringSize(n)) && (n.File? || n.Dup? || n.Here?)
      modifies this`funcblock, this`funcstring, this`mem, this`extents
      ensures Placed(z, junk, State()) && Step(old(State()), State())
      ensures funcblock == old(funcblock) + Below(z, n) && funcstring == old(funcstring) + StringSize(n)
      ensures FieldsCopied(mem, cell, n) && SizeOf(z, cell) == StructSize(z, n)
      ensures cell.FileS? ==> cell.expfname == junk(at)
      decreases n, 0, 0
    {
      hide Placed, Step, IsCopy, ListCopied, TextLies, BlockSize, ListSize, ListStrings;
      ghost var b := State();
      match n
      case File(k, next, fd, fname, _) =>
        var pf := CopyNode(fname);
        ghost var b1 := State();
        var pn := CopyNode(next);
        Later(b, b1, State(), pf, fname);
        cell := FileS(k, pn, fd, pf, junk(at));
      case Dup(k, next, fd, dupfd, vname) =>
        var pv := CopyNode(vname);
        ghost var b1 := State();
        var pn := CopyNode(next);
        Later(b, b1, State(), pv, vname);
        cell := DupS(k, pn, fd, dupfd, pv);
      case Here(k, next, fd, doc) =>
        var pd := CopyNode(doc);
        ghost var b1 := State();
        var pn := CopyNode(next);
        Later(b, b1, State(), pd, doc);
        cell := HereS(k, pn, fd, pd);
    }

    /** copynodelist: the links are made one after the other, each linked from the one before. */
    method CopyNodeList(ns: seq<Tree>) returns (start: Ptr)
      requires Placed(z, junk, State()) && Room(ListSize(z, ns), ListStrings(ns))
      modifies this`funcblock, this`funcstring, this`mem, this`extents
      ensures Placed(z, junk, State()) && Step(old(State()), State())
      ensures funcblock == old(funcblock) + ListSize(z, ns) && funcstring == old(funcstring) + ListStrings(ns)
      ensures ListCopied(mem, start, ns)
      decreases ns, 0
    {
      hide Placed, Step, Linked, BlockSize, StringSize;
      ghost var b := State();
      ghost var links: seq<nat> := [];
      var lpp: Ptr := None;
      start := None;
      Stay(b);
      LinkedNone(mem);
      for k := 0 to |ns|
        invariant |links| == k && Placed(z, junk, State()) && Step(b, State()) && Linked(mem, start, links, ns[..k])
        invariant Room(ListSize(z, ns[k..]), ListStrings(ns[k..]))
        invariant funcblock + ListSize(z, ns[k..]) == b.block + ListSize(z, ns)
        invariant funcstring + ListStrings(ns[k..]) == b.strings + ListStrings(ns)
        invariant lpp == LastLink(links) && (lpp.Some? ==> Open(z, b, State(), lpp.value))
      {
        assert ns[k..][1..] == ns[k + 1..] && ns[..k + 1] == ns[..k] + [ns[k]];
        start, lpp := CopyLink(ns[k], start, lpp, b, links, ns[..k]);
        links := links + [lpp.value];
      }
      assert ns[..|ns|] == ns;
      if lpp == None {
        start := None;
        LinkedNone(mem);
      } else {
        NextPlaced(z, junk, b, State(), lpp.value, None);
        LinkedGrows(mem, NextPut(State(), lpp.value, None).mem, start, links, ns);
        mem := mem.(nexts := mem.nexts[lpp.value := None]);
      }
      ListClosed(mem, start, links, ns);
    }

    /** One more link: where lpp points to is pointed to it. */
    method CopyLink(n: Tree, start: Ptr, lpp: Ptr, ghost b: Block, ghost links: seq<nat>, ghost ns: seq<Tree>)
      returns (start': Ptr, lpp': Ptr)
      requires Placed(z, junk, State()) && Step(b, State()) && Linked(mem, start, links, ns)
      requires Room(z.nodelist + BlockSize(z, n), StringSize(n))
      requires lpp == LastLink(links) && (lpp.Some? ==> Open(z, b, State(), lpp.value))
      modifies this`funcblock, this`funcstring, this`mem, this`extents
      ensures Placed(z, junk, State()) && Step(b, State())
      ensures funcblock == old(funcblock) + z.nodelist + BlockSize(z, n)
              && funcstring == old(funcstring) + StringSize(n)
      ensures lpp'.Some? && Open(z, b, State(), lpp'.value) && Linked(mem, start', links + [lpp'.value], ns + [n])
      decreases n, 2
    {
      hide Placed, Step, Linked, BlockSize, StringSize, IsCopy, Grows;
      ghost var b0 := State();
      TakenPlaced(z, junk, b0, z.nodelist);
      var here := Reserve(z.nodelist);
      Then(b, b0, State());
      start' := start;
      ghost var b1 := State();
      if lpp == None {
        start' := Some(here);
      } else {
        PlaceStays(b0, b1, lpp.value, z.nodelist);
        NextPlaced(z, junk, b, b1, lpp.value, Some(here));
        LinkedGrows(mem, NextPut(b1, lpp.value, Some(here)).mem, start, links, ns);
        mem := mem.(nexts := mem.nexts[lpp.value := Some(here)]);
      }
      ghost var b2 := State();
      var p := CopyNode(n);
      ghost var b3 := State();
      Then(b, b2, b3);
      PlaceStays(b2, b3, here, z.nodelist);
      if lpp != None { PlaceStays(b2, b3, lpp.value, z.nodelist); }
      LinkedLater(b2, b3, start, links, ns);
      MemberPlaced(z, junk, b, b3, here, p);
      LinkedGrows(b3.mem, MemberPut(b3, here, p).mem, start, links, ns);
      CopyGrows(b3.mem, MemberPut(b3, here, p).mem, p, n);
      mem := mem.(members := mem.members[here := p]);
      LinkedNext(mem, start, links, ns, here, n);
      lpp' := Some(here);
    }

    /** copyfunc: one block holds the copy, with the root at its start. Exactly what was counted is used, no
        struct is written over another, and following the pointers one finds the tree. */
    method CopyFunc(n: Tree) returns (p: Ptr)
      modifies this
      ensures n.Null? ==> p == None
      ensures !n.Null? ==> p == Some(0) && IsCopy(mem, p, n)
      ensures !n.Null? ==> funcblock == funcblocksize && funcstring == funcblocksize + funcstringsize
      ensures !n.Null? ==> Placed(z, junk, State()) && forall k :: k in mem.chars ==> funcblocksize <= k
    {
      if n.Null? { return None; }
      hide IsCopy, BlockSize, StringSize;
      funcblocksize, funcstringsize := 0, 0;
      CalcSize(n);
      funcblock, funcstring, mem, extents := 0, funcblocksize, Memory(map[], map[], map[], map[]), [];
      p := CopyNode(n);
    }
  }
}
