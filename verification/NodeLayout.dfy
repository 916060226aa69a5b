/** Parse trees, and what it is for a block of memory to hold a copy of one. */
module NodeLayout {
  import opened Bytes

  // ----- Parse trees -----

  const NUL := '\0'

  /** A text of C: it ends at the first null character. */
  type CString = s: string | NUL !in s

  datatype BinaryKind = NSemi | NAnd | NOr | NWhile | NUntil
  datatype RedirKind = NRedir | NBackgnd | NSubshell
  datatype ArgKind = NDefun | NArg
  datatype FileKind = NTo | NClobber | NFrom | NFromTo | NAppend
  datatype DupKind = NToFd | NFromFd
  datatype HereKind = NHere | NXHere

  /** A parse tree: a constructor for each struct, with its fields as they are declared. A list of
      nodes is the sequence of its members. */
  datatype Tree =
    | Null
    | Binary(binary: BinaryKind, ch1: Tree, ch2: Tree)
    | Cmd(backgnd: int, args: Tree, redirect: Tree)
    | Pipe(backgnd: int, cmdlist: seq<Tree>)
    | Redir(redir: RedirKind, n: Tree, redirect: Tree)
    | If(test: Tree, ifpart: Tree, elsepart: Tree)
    | For(args: Tree, body: Tree, name: CString)
    | Case(expr: Tree, cases: Tree)
    | Clist(next: Tree, pattern: Tree, body: Tree)
    | Arg(arg: ArgKind, next: Tree, text: CString, backquote: seq<Tree>)
    | File(file: FileKind, next: Tree, fd: int, fname: Tree, expfname: CString)
    | Dup(dup: DupKind, next: Tree, fd: int, dupfd: int, vname: Tree)
    | Here(here: HereKind, next: Tree, fd: int, doc: Tree)
    | Not(com: Tree)

  /** The number that stands for the kind of a node. */
  function Type(t: Tree): (r: nat)
    requires !t.Null?
  {
    match t
    case Binary(k, _, _) => (match k case NSemi => 0 case NAnd => 6 case NOr => 7 case NWhile => 9 case NUntil => 10)
    case Cmd(_, _, _) => 1
    case Pipe(_, _) => 2
    case Redir(k, _, _) => (match k case NRedir => 3 case NBackgnd => 4 case NSubshell => 5)
    case If(_, _, _) => 8
    case For(_, _, _) => 11
    case Case(_, _) => 12
    case Clist(_, _, _) => 13
    case Arg(k, _, _, _) => if k.NDefun? then 14 else 15
    case File(k, _, _, _, _) =>
      (match k case NTo => 16 case NClobber => 17 case NFrom => 18 case NFromTo => 19 case NAppend => 20)
    case Dup(k, _, _, _, _) => if k.NToFd? then 21 else 22
    case Here(k, _, _, _) => if k.NHere? then 23 else 24
    case Not(_) => 25
  }

  // ----- Sizes -----

  type Size = n: nat | n > 0 witness 1

  /** The sizes of the structs, rounded up to the alignment. */
  datatype Sizes = Sizes(nbinary: Size, ncmd: Size, npipe: Size, nredir: Size, nif: Size, nfor: Size, ncase: Size,
                         nclist: Size, narg: Size, nfile: Size, ndup: Size, nhere: Size, nnot: Size, nodelist: Size)

  /** The table of sizes by type. */
  function NodeSizes(z: Sizes): (r: seq<Size>) {
    [z.nbinary, z.ncmd, z.npipe, z.nredir, z.nredir, z.nredir, z.nbinary, z.nbinary, z.nif, z.nbinary, z.nbinary,
     z.nfor, z.ncase, z.nclist, z.narg, z.narg, z.nfile, z.nfile, z.nfile, z.nfile, z.nfile, z.ndup, z.ndup,
     z.nhere, z.nhere, z.nnot]
  }

  /** The size of the struct that a node is. */
  function StructSize(z: Sizes, t: Tree): (r: Size)
    requires !t.Null?
  {
    match t
    case Binary(_, _, _) => z.nbinary
    case Cmd(_, _, _) => z.ncmd
    case Pipe(_, _) => z.npipe
    case Redir(_, _, _) => z.nredir
    case If(_, _, _) => z.nif
    case For(_, _, _) => z.nfor
    case Case(_, _) => z.ncase
    case Clist(_, _, _) => z.nclist
    case Arg(_, _, _, _) => z.narg
    case File(_, _, _, _, _) => z.nfile
    case Dup(_, _, _, _, _) => z.ndup
    case Here(_, _, _, _) => z.nhere
    case Not(_) => z.nnot
  }

  /** The table has the size of the right struct under every type. */
  lemma TableRight(z: Sizes, t: Tree)
    requires !t.Null?
    ensures Type(t) < |NodeSizes(z)| && NodeSizes(z)[Type(t)] == StructSize(z, t)
  {
    match t
    case Binary(k, _, _) =>
    case Redir(k, _, _) =>
    case File(k, _, _, _, _) =>
    case _ =>
  }

  /** The structs of a tree, its own and those below. */
  function BlockSize(z: Sizes, t: Tree): (r: nat)
    decreases t, 1
  {
    if t.Null? then 0 else StructSize(z, t) + Below(z, t)
  }

  function Below(z: Sizes, t: Tree): (r: nat)
    decreases t, 0
  {
    match t
    case Null => 0
    case Binary(_, ch1, ch2) => BlockSize(z, ch1) + BlockSize(z, ch2)
    case Cmd(_, args, redirect) => BlockSize(z, args) + BlockSize(z, redirect)
    case Pipe(_, cmdlist) => ListSize(z, cmdlist)
    case Redir(_, n, redirect) => BlockSize(z, n) + BlockSize(z, redirect)
    case If(test, ifpart, elsepart) => BlockSize(z, test) + BlockSize(z, ifpart) + BlockSize(z, elsepart)
    case For(args, body, _) => BlockSize(z, args) + BlockSize(z, body)
    case Case(expr, cases) => BlockSize(z, expr) + BlockSize(z, cases)
    case Clist(next, pattern, body) => BlockSize(z, next) + BlockSize(z, pattern) + BlockSize(z, body)
    case Arg(_, next, _, backquote) => BlockSize(z, next) + ListSize(z, backquote)
    case File(_, next, _, fname, _) => BlockSize(z, next) + BlockSize(z, fname)
    case Dup(_, next, _, _, vname) => BlockSize(z, next) + BlockSize(z, vname)
    case Here(_, next, _, doc) => BlockSize(z, next) + BlockSize(z, doc)
    case Not(com) => BlockSize(z, com)
  }

  function ListSize(z: Sizes, ns: seq<Tree>): (r: nat)
    decreases ns, 0
  {
    if ns == [] then 0 else z.nodelist + BlockSize(z, ns[0]) + ListSize(z, ns[1..])
  }

  /** The texts of a tree, each with its end. */
  function StringSize(t: Tree): (r: nat)
    decreases t, 1
  {
    match t
    case Null => 0
    case Binary(_, ch1, ch2) => StringSize(ch1) + StringSize(ch2)
    case Cmd(_, args, redirect) => StringSize(args) + StringSize(redirect)
    case Pipe(_, cmdlist) => ListStrings(cmdlist)
    case Redir(_, n, redirect) => StringSize(n) + StringSize(redirect)
    case If(test, ifpart, elsepart) => StringSize(test) + StringSize(ifpart) + StringSize(elsepart)
    case For(args, body, name) => StringSize(args) + StringSize(body) + |name| + 1
    case Case(expr, cases) => StringSize(expr) + StringSize(cases)
    case Clist(next, pattern, body) => StringSize(next) + StringSize(pattern) + StringSize(body)
    case Arg(_, next, text, backquote) => StringSize(next) + |text| + 1 + ListStrings(backquote)
    case File(_, next, _, fname, _) => StringSize(next) + StringSize(fname)
    case Dup(_, next, _, _, vname) => StringSize(next) + StringSize(vname)
    case Here(_, next, _, doc) => StringSize(next) + StringSize(doc)
    case Not(com) => StringSize(com)
  }

  function ListStrings(ns: seq<Tree>): (r: nat)
    decreases ns, 0
  {
    if ns == [] then 0 else StringSize(ns[0]) + ListStrings(ns[1..])
  }

  // ----- Memory -----

  /** A pointer: null or an offset in the block. */
  type Ptr = Option<nat>

  /** A struct of the copy: its pointers are offsets, and so are its texts. */
  datatype Struct =
    | BinaryS(binary: BinaryKind, ch1: Ptr, ch2: Ptr)
    | CmdS(backgnd: int, args: Ptr, redirect: Ptr)
    | PipeS(backgnd: int, cmdlist: Ptr)
    | RedirS(redir: RedirKind, n: Ptr, redirect: Ptr)
    | IfS(test: Ptr, ifpart: Ptr, elsepart: Ptr)
    | ForS(args: Ptr, body: Ptr, name: nat)
    | CaseS(expr: Ptr, cases: Ptr)
    | ClistS(next: Ptr, pattern: Ptr, body: Ptr)
    | ArgS(arg: ArgKind, next: Ptr, text: nat, backquote: Ptr)
    | FileS(file: FileKind, next: Ptr, fd: int, fname: Ptr, expfname: Ptr)
    | DupS(dup: DupKind, next: Ptr, fd: int, dupfd: int, vname: Ptr)
    | HereS(here: HereKind, next: Ptr, fd: int, doc: Ptr)
    | NotS(com: Ptr)

  function SizeOf(z: Sizes, c: Struct): (r: Size) {
    match c
    case BinaryS(_, _, _) => z.nbinary
    case CmdS(_, _, _) => z.ncmd
    case PipeS(_, _) => z.npipe
    case RedirS(_, _, _) => z.nredir
    case IfS(_, _, _) => z.nif
    case ForS(_, _, _) => z.nfor
    case CaseS(_, _) => z.ncase
    case ClistS(_, _, _) => z.nclist
    case ArgS(_, _, _, _) => z.narg
    case FileS(_, _, _, _, _) => z.nfile
    case DupS(_, _, _, _, _) => z.ndup
    case HereS(_, _, _, _) => z.nhere
    case NotS(_) => z.nnot
  }

  /** What has been written: the structs, the two fields of every list link, and the characters. */
  datatype Memory = Memory(structs: map<nat, Struct>, members: map<nat, Ptr>, nexts: map<nat, Ptr>,
                           chars: map<nat, char>)

  /** Nothing that was written is changed. */
  predicate Grows(m: Memory, m': Memory) {
    && (forall k :: k in m.structs ==> k in m'.structs && m'.structs[k] == m.structs[k])
    && (forall k :: k in m.members ==> k in m'.members && m'.members[k] == m.members[k])
    && (forall k :: k in m.nexts ==> k in m'.nexts && m'.nexts[k] == m.nexts[k])
    && (forall k :: k in m.chars ==> k in m'.chars && m'.chars[k] == m.chars[k])
  }

  predicate TextLies(chars: map<nat, char>, s: CString, q: nat) {
    && (forall k :: q <= k < q + |s| ==> k in chars && chars[k] == s[k - q])
    && q + |s| in chars && chars[q + |s|] == NUL
  }

  // ----- Following the pointers -----

  /** Following the pointers from p, one finds the tree, but for expfname. */
  predicate IsCopy(m: Memory, p: Ptr, t: Tree)
    decreases t, 1
  {
    if t.Null? then p == None else p.Some? && p.value in m.structs && FieldsCopied(m, m.structs[p.value], t)
  }

  predicate FieldsCopied(m: Memory, c: Struct, t: Tree)
    decreases t, 0
  {
    match (t, c)
    case (Binary(k, ch1, ch2), BinaryS(k', p1, p2)) => k' == k && IsCopy(m, p1, ch1) && IsCopy(m, p2, ch2)
    case (Cmd(b, args, redirect), CmdS(b', pa, pr)) => b' == b && IsCopy(m, pa, args) && IsCopy(m, pr, redirect)
    case (Pipe(b, cmdlist), PipeS(b', pl)) => b' == b && ListCopied(m, pl, cmdlist)
    case (Redir(k, n, redirect), RedirS(k', pn, pr)) => k' == k && IsCopy(m, pn, n) && IsCopy(m, pr, redirect)
    case (If(test, ifpart, elsepart), IfS(pt, pi, pe)) =>
      IsCopy(m, pt, test) && IsCopy(m, pi, ifpart) && IsCopy(m, pe, elsepart)
    case (For(args, body, name), ForS(pa, pb, q)) => IsCopy(m, pa, args) && IsCopy(m, pb, body)
        && TextLies(m.chars, name, q)
    case (Case(expr, cases), CaseS(pe, pc)) => IsCopy(m, pe, expr) && IsCopy(m, pc, cases)
    case (Clist(next, pattern, body), ClistS(pn, pp, pb)) =>
      IsCopy(m, pn, next) && IsCopy(m, pp, pattern) && IsCopy(m, pb, body)
    case (Arg(k, next, text, backquote), ArgS(k', pn, q, pl)) =>
      k' == k && IsCopy(m, pn, next) && TextLies(m.chars, text, q) && ListCopied(m, pl, backquote)
    case (File(k, next, fd, fname, _), FileS(k', pn, fd', pf, _)) =>
      k' == k && fd' == fd && IsCopy(m, pn, next) && IsCopy(m, pf, fname)
    case (Dup(k, next, fd, dupfd, vname), DupS(k', pn, fd', dupfd', pv)) =>
      k' == k && fd' == fd && dupfd' == dupfd && IsCopy(m, pn, next) && IsCopy(m, pv, vname)
    case (Here(k, next, fd, doc), HereS(k', pn, fd', pd)) =>
      k' == k && fd' == fd && IsCopy(m, pn, next) && IsCopy(m, pd, doc)
    case (Not(com), NotS(pc)) => IsCopy(m, pc, com)
    case _ => false
  }

  /** The links from p on lead to copies of the members. */
  predicate ListCopied(m: Memory, p: Ptr, ns: seq<Tree>)
    decreases ns, 0
  {
    if ns == [] then p == None
    else
      && p.Some? && p.value in m.members && p.value in m.nexts
      && IsCopy(m, m.members[p.value], ns[0]) && ListCopied(m, m.nexts[p.value], ns[1..])
  }

  // ----- A copy is not undone by what is written later -----

  lemma TextGrows(m: Memory, m': Memory, s: CString, q: nat)
    requires TextLies(m.chars, s, q) && Grows(m, m')
    ensures TextLies(m'.chars, s, q)
  {
    assert q + |s| in m'.chars;
  }

  lemma {:induction false} CopyGrows(m: Memory, m': Memory, p: Ptr, t: Tree)
    requires IsCopy(m, p, t) && Grows(m, m')
    ensures IsCopy(m', p, t)
    decreases t, 1
  {
    hide FieldsCopied;
    if !t.Null? { FieldsGrow(m, m', m.structs[p.value], t); }
  }

  lemma {:induction false} FieldsGrow(m: Memory, m': Memory, c: Struct, t: Tree)
    requires FieldsCopied(m, c, t) && Grows(m, m')
    ensures FieldsCopied(m', c, t)
    decreases t, 0
  {
    hide Grows, IsCopy, ListCopied, TextLies;
    match c
    case BinaryS(_, p1, p2) => CopyGrows(m, m', p1, t.ch1); CopyGrows(m, m', p2, t.ch2);
    case CmdS(_, pa, pr) => CopyGrows(m, m', pa, t.args); CopyGrows(m, m', pr, t.redirect);
    case PipeS(_, pl) => ListGrows(m, m', pl, t.cmdlist);
    case RedirS(_, pn, pr) => CopyGrows(m, m', pn, t.n); CopyGrows(m, m', pr, t.redirect);
    case IfS(pt, pi, pe) =>
      CopyGrows(m, m', pt, t.test);
      CopyGrows(m, m', pi, t.ifpart);
      CopyGrows(m, m', pe, t.elsepart);
    case ForS(pa, pb, q) =>
      CopyGrows(m, m', pa, t.args);
      CopyGrows(m, m', pb, t.body);
      TextGrows(m, m', t.name, q);
    case CaseS(pe, pc) => CopyGrows(m, m', pe, t.expr); CopyGrows(m, m', pc, t.cases);
    case ClistS(pn, pp, pb) =>
      CopyGrows(m, m', pn, t.next);
      CopyGrows(m, m', pp, t.pattern);
      CopyGrows(m, m', pb, t.body);
    case ArgS(_, pn, q, pl) =>
      CopyGrows(m, m', pn, t.next);
      TextGrows(m, m', t.text, q);
      ListGrows(m, m', pl, t.backquote);
    case FileS(_, pn, _, pf, _) => CopyGrows(m, m', pn, t.next); CopyGrows(m, m', pf, t.fname);
    case DupS(_, pn, _, _, pv) => CopyGrows(m, m', pn, t.next); CopyGrows(m, m', pv, t.vname);
    case HereS(_, pn, _, pd) => CopyGrows(m, m', pn, t.next); CopyGrows(m, m', pd, t.doc);
    case NotS(pc) => CopyGrows(m, m', pc, t.com);
  }

  lemma {:induction false} ListGrows(m: Memory, m': Memory, p: Ptr, ns: seq<Tree>)
    requires ListCopied(m, p, ns) && Grows(m, m')
    ensures ListCopied(m', p, ns)
    decreases ns, 0
  {
    hide IsCopy;
    if ns != [] {
      CopyGrows(m, m', m.members[p.value], ns[0]);
      ListGrows(m, m', m.nexts[p.value], ns[1..]);
    }
  }

  // ----- What a copy tells about the tree: all but expfname -----

  /** The tree without the names that redirections expand to. */
  function Blank(t: Tree): (r: Tree)
    decreases t, 1
  {
    match t
    case Null => Null
    case Binary(k, ch1, ch2) => Binary(k, Blank(ch1), Blank(ch2))
    case Cmd(b, args, redirect) => Cmd(b, Blank(args), Blank(redirect))
    case Pipe(b, cmdlist) => Pipe(b, BlankList(cmdlist))
    case Redir(k, n, redirect) => Redir(k, Blank(n), Blank(redirect))
    case If(test, ifpart, elsepart) => If(Blank(test), Blank(ifpart), Blank(elsepart))
    case For(args, body, name) => For(Blank(args), Blank(body), name)
    case Case(expr, cases) => Case(Blank(expr), Blank(cases))
    case Clist(next, pattern, body) => Clist(Blank(next), Blank(pattern), Blank(body))
    case Arg(k, next, text, backquote) => Arg(k, Blank(next), text, BlankList(backquote))
    case File(k, next, fd, fname, _) => File(k, Blank(next), fd, Blank(fname), "")
    case Dup(k, next, fd, dupfd, vname) => Dup(k, Blank(next), fd, dupfd, Blank(vname))
    case Here(k, next, fd, doc) => Here(k, Blank(next), fd, Blank(doc))
    case Not(com) => Not(Blank(com))
  }

  function BlankList(ns: seq<Tree>): (r: seq<Tree>)
    decreases ns, 0
  {
    if ns == [] then [] else [Blank(ns[0])] + BlankList(ns[1..])
  }

  lemma OneText(chars: map<nat, char>, s: CString, s': CString, q: nat)
    requires TextLies(chars, s, q) && TextLies(chars, s', q)
    ensures s == s'
  {
    TextEnds(chars, s, s', q);
    TextEnds(chars, s', s, q);
    forall k | 0 <= k < |s| ensures s[k] == s'[k] { assert s[k] == chars[q + k] == s'[k]; }
  }

  lemma TextEnds(chars: map<nat, char>, s: CString, s': CString, q: nat)
    requires TextLies(chars, s, q) && TextLies(chars, s', q)
    ensures |s'| <= |s|
  {
    NoEnd(chars, s', q, |s|);
  }

  lemma NoEnd(chars: map<nat, char>, s: CString, q: nat, k: nat)
    requires TextLies(chars, s, q) && q + k in chars && chars[q + k] == NUL
    ensures |s| <= k
  {
  }

  /** One copy is not a copy of two trees that differ in anything else. */
  lemma {:induction false} OneTree(m: Memory, p: Ptr, t: Tree, t': Tree)
    requires IsCopy(m, p, t) && IsCopy(m, p, t')
    ensures Blank(t) == Blank(t')
    decreases t, 1
  {
    hide FieldsCopied;
    if !t.Null? { OneStruct(m, m.structs[p.value], t, t'); }
  }

  lemma {:induction false} OneStruct(m: Memory, c: Struct, t: Tree, t': Tree)
    requires FieldsCopied(m, c, t) && FieldsCopied(m, c, t')
    ensures Blank(t) == Blank(t')
    decreases t, 0
  {
    hide IsCopy, ListCopied, TextLies;
    match c
    case BinaryS(_, p1, p2) => OneTree(m, p1, t.ch1, t'.ch1); OneTree(m, p2, t.ch2, t'.ch2);
    case CmdS(_, pa, pr) => OneTree(m, pa, t.args, t'.args); OneTree(m, pr, t.redirect, t'.redirect);
    case PipeS(_, pl) => OneList(m, pl, t.cmdlist, t'.cmdlist);
    case RedirS(_, pn, pr) => OneTree(m, pn, t.n, t'.n); OneTree(m, pr, t.redirect, t'.redirect);
    case IfS(pt, pi, pe) =>
      OneTree(m, pt, t.test, t'.test);
      OneTree(m, pi, t.ifpart, t'.ifpart);
      OneTree(m, pe, t.elsepart, t'.elsepart);
    case ForS(pa, pb, q) =>
      OneTree(m, pa, t.args, t'.args);
      OneTree(m, pb, t.body, t'.body);
      OneText(m.chars, t.name, t'.name, q);
    case CaseS(pe, pc) => OneTree(m, pe, t.expr, t'.expr); OneTree(m, pc, t.cases, t'.cases);
    case ClistS(pn, pp, pb) =>
      OneTree(m, pn, t.next, t'.next);
      OneTree(m, pp, t.pattern, t'.pattern);
      OneTree(m, pb, t.body, t'.body);
    case ArgS(_, pn, q, pl) =>
      OneTree(m, pn, t.next, t'.next);
      OneText(m.chars, t.text, t'.text, q);
      OneList(m, pl, t.backquote, t'.backquote);
    case FileS(_, pn, _, pf, _) => OneTree(m, pn, t.next, t'.next); OneTree(m, pf, t.fname, t'.fname);
    case DupS(_, pn, _, _, pv) => OneTree(m, pn, t.next, t'.next); OneTree(m, pv, t.vname, t'.vname);
    case HereS(_, pn, _, pd) => OneTree(m, pn, t.next, t'.next); OneTree(m, pd, t.doc, t'.doc);
    case NotS(pc) => OneTree(m, pc, t.com, t'.com);
  }

  lemma {:induction false} OneList(m: Memory, p: Ptr, ns: seq<Tree>, ns': seq<Tree>)
    requires ListCopied(m, p, ns) && ListCopied(m, p, ns')
    ensures BlankList(ns) == BlankList(ns')
    decreases ns, 0
  {
    hide IsCopy;
    if ns != [] {
      OneTree(m, m.members[p.value], ns[0], ns'[0]);
      OneList(m, m.nexts[p.value], ns[1..], ns'[1..]);
    }
  }

  /** A copy is a copy of every tree that differs in nothing else. */
  lemma {:induction false} SameCopy(m: Memory, p: Ptr, t: Tree, t': Tree)
    requires IsCopy(m, p, t) && Blank(t) == Blank(t')
    ensures IsCopy(m, p, t')
    decreases t, 1
  {
    hide FieldsCopied;
    if !t.Null? { SameStruct(m, m.structs[p.value], t, t'); }
  }

  lemma {:induction false} SameStruct(m: Memory, c: Struct, t: Tree, t': Tree)
    requires FieldsCopied(m, c, t) && Blank(t) == Blank(t')
    ensures FieldsCopied(m, c, t')
    decreases t, 0
  {
    hide IsCopy, ListCopied, TextLies;
    match c
    case BinaryS(_, p1, p2) => SameCopy(m, p1, t.ch1, t'.ch1); SameCopy(m, p2, t.ch2, t'.ch2);
    case CmdS(_, pa, pr) => SameCopy(m, pa, t.args, t'.args); SameCopy(m, pr, t.redirect, t'.redirect);
    case PipeS(_, pl) => SameMembers(m, pl, t.cmdlist, t'.cmdlist);
    case RedirS(_, pn, pr) => SameCopy(m, pn, t.n, t'.n); SameCopy(m, pr, t.redirect, t'.redirect);
    case IfS(pt, pi, pe) =>
      SameCopy(m, pt, t.test, t'.test);
      SameCopy(m, pi, t.ifpart, t'.ifpart);
      SameCopy(m, pe, t.elsepart, t'.elsepart);
    case ForS(pa, pb, _) => SameCopy(m, pa, t.args, t'.args); SameCopy(m, pb, t.body, t'.body);
    case CaseS(pe, pc) => SameCopy(m, pe, t.expr, t'.expr); SameCopy(m, pc, t.cases, t'.cases);
    case ClistS(pn, pp, pb) =>
      SameCopy(m, pn, t.next, t'.next);
      SameCopy(m, pp, t.pattern, t'.pattern);
      SameCopy(m, pb, t.body, t'.body);
    case ArgS(_, pn, _, pl) => SameCopy(m, pn, t.next, t'.next); SameMembers(m, pl, t.backquote, t'.backquote);
    case FileS(_, pn, _, pf, _) => SameCopy(m, pn, t.next, t'.next); SameCopy(m, pf, t.fname, t'.fname);
    case DupS(_, pn, _, _, pv) => SameCopy(m, pn, t.next, t'.next); SameCopy(m, pv, t.vname, t'.vname);
    case HereS(_, pn, _, pd) => SameCopy(m, pn, t.next, t'.next); SameCopy(m, pd, t.doc, t'.doc);
    case NotS(pc) => SameCopy(m, pc, t.com, t'.com);
  }

  lemma {:induction false} SameMembers(m: Memory, p: Ptr, ns: seq<Tree>, ns': seq<Tree>)
    requires ListCopied(m, p, ns) && BlankList(ns) == BlankList(ns')
    ensures ListCopied(m, p, ns')
    decreases ns, 0
  {
    hide IsCopy;
    if ns != [] {
      Heads(Blank(ns[0]), BlankList(ns[1..]), Blank(ns'[0]), BlankList(ns'[1..]));
      SameCopy(m, m.members[p.value], ns[0], ns'[0]);
      SameMembers(m, m.nexts[p.value], ns[1..], ns'[1..]);
    }
  }

  lemma Heads<T>(x: T, xs: seq<T>, y: T, ys: seq<T>)
    requires [x] + xs == [y] + ys
    ensures x == y && xs == ys
  {
    assert ([x] + xs)[0] == ([y] + ys)[0];
    assert ([x] + xs)[1..] == xs && ([y] + ys)[1..] == ys;
  }

  /** Two trees have the same copy if and only if they are the same but for expfname. */
  lemma CopyDetermines(m: Memory, p: Ptr, t: Tree, t': Tree)
    requires IsCopy(m, p, t)
    ensures IsCopy(m, p, t') <==> Blank(t) == Blank(t')
  {
    hide IsCopy;
    if IsCopy(m, p, t') { OneTree(m, p, t, t'); }
    if Blank(t) == Blank(t') { SameCopy(m, p, t, t'); }
  }
}
