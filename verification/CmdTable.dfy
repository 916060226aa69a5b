/** The command table: hash chains of entries, searched and changed in place. */
module CmdTable {
  import opened Bytes
  import opened PathSearch
  import opened Chains
  import opened CmdCache

  const TABLE_SIZE := 31

  // ----- Whole chains -----

  /** Every entry of the chain is marked that a change of directory puts in doubt. */
  ghost predicate ChainMarked(before: seq<Entry<Cmd>>, after: seq<Entry<Cmd>>, loc: int) {
    Distinct(after) && forall n {:trigger Get(after, n)} :: Get(after, n) == MarkedSlot(Get(before, n), loc)
  }

  /** Exactly the entries are gone that a change of PATH makes wrong. */
  ghost predicate ChainCleared(before: seq<Entry<Cmd>>, after: seq<Entry<Cmd>>, first: int, loc: int) {
    Distinct(after) && forall n {:trigger Get(after, n)} :: Get(after, n) == Cleared(Get(before, n), first, loc)
  }

  lemma MarkedAll(before: seq<Entry<Cmd>>, after: seq<Entry<Cmd>>, loc: int)
    requires Distinct(before) && |after| == |before|
    requires forall k :: 0 <= k < |after| ==> after[k] == Entry(before[k].name, Marked(before[k].item, loc))
    ensures ChainMarked(before, after, loc)
  {
    forall n
      ensures Get(after, n) == MarkedSlot(Get(before, n), loc)
    {
      PlaceIs(after, n, PlaceOf(before, n));
    }
  }

  method MarkChain(chain: seq<Entry<Cmd>>, loc: int) returns (after: seq<Entry<Cmd>>)
    requires Distinct(chain)
    ensures ChainMarked(chain, after, loc)
  {
    after := chain;
    var i := 0;
    while i < |after|
      invariant i <= |after| && |after| == |chain|
      invariant forall k :: 0 <= k < i ==> after[k] == Entry(chain[k].name, Marked(chain[k].item, loc))
      invariant forall k :: i <= k < |after| ==> after[k] == chain[k]
    {
      if after[i].item.kind.Program? || (after[i].item.kind.BuiltinCmd? && loc >= 0) {
        after := after[i := Entry(after[i].name, after[i].item.(rehash := true))];
      }
      i := i + 1;
    }
    MarkedAll(chain, after, loc);
  }

  /** Entries dropped so far are wrong, the others are still there, and the first i are right. */
  ghost predicate Clearing(before: seq<Entry<Cmd>>, now: seq<Entry<Cmd>>, i: nat, first: int, loc: int) {
    && i <= |now| && Distinct(now) && (forall k :: 0 <= k < i ==> !Dropped(now[k].item, first, loc))
    && forall n {:trigger Get(now, n)} ::
       Get(now, n) == Get(before, n) || (Get(now, n) == None && Cleared(Get(before, n), first, loc) == None)
  }

  lemma ClearingNext(before: seq<Entry<Cmd>>, now: seq<Entry<Cmd>>, i: nat, first: int, loc: int)
    requires Clearing(before, now, i, first, loc) && i < |now|
    ensures Clearing(before, if Dropped(now[i].item, first, loc) then Without(now, i) else now,
                     if Dropped(now[i].item, first, loc) then i else i + 1, first, loc)
  {
    if Dropped(now[i].item, first, loc) { ClearingDrop(before, now, i, first, loc); }
  }

  /** A wrong entry is unlinked. */
  lemma ClearingDrop(before: seq<Entry<Cmd>>, now: seq<Entry<Cmd>>, i: nat, first: int, loc: int)
    requires Clearing(before, now, i, first, loc) && i < |now| && Dropped(now[i].item, first, loc)
    ensures Clearing(before, Without(now, i), i, first, loc)
  {
    var after, name := Without(now, i), now[i].name;
    DroppedCleared(before, now, i, first, loc);
    FrontStays(now, i);
    hide Get, Distinct, Dropped, Cleared, Without;
    GetRemoved(now, i, name);
    forall n
      ensures Get(after, n) == Get(before, n)
              || (Get(after, n) == None && Cleared(Get(before, n), first, loc) == None)
    {
      GetRemoved(now, i, n);
      assert Get(now, n) == Get(before, n) || (Get(now, n) == None && Cleared(Get(before, n), first, loc) == None);
    }
  }

  /** The name of a wrong entry is to be cleared. */
  lemma DroppedCleared(before: seq<Entry<Cmd>>, now: seq<Entry<Cmd>>, i: nat, first: int, loc: int)
    requires Clearing(before, now, i, first, loc) && i < |now| && Dropped(now[i].item, first, loc)
    ensures Cleared(Get(before, now[i].name), first, loc) == None
  {
    hide Distinct;
    GetAt(now, i);
    assert Get(now, now[i].name) == Some(now[i].item);
  }

  lemma FrontStays<T>(chain: seq<Entry<T>>, i: nat)
    requires i < |chain|
    ensures |Without(chain, i)| == |chain| - 1 && forall k :: 0 <= k < i ==> Without(chain, i)[k] == chain[k]
  {
  }

  lemma ClearedAll(before: seq<Entry<Cmd>>, now: seq<Entry<Cmd>>, first: int, loc: int)
    requires Clearing(before, now, |now|, first, loc)
    ensures ChainCleared(before, now, first, loc)
  {
  }

  method ClearChain(chain: seq<Entry<Cmd>>, first: int, loc: int) returns (after: seq<Entry<Cmd>>)
    requires Distinct(chain)
    ensures ChainCleared(chain, after, first, loc)
  {
    after := chain;
    var i := 0;
    while i < |after|
      invariant i <= |after| && Clearing(chain, after, i, first, loc)
      decreases |after| - i
    {
      ClearingNext(chain, after, i, first, loc);
      if (after[i].item.kind.Program? && after[i].item.kind.index >= first)
          || (after[i].item.kind.BuiltinCmd? && loc >= first) {
        after := after[..i] + after[i + 1..];
      } else {
        i := i + 1;
      }
    }
    ClearedAll(chain, after, first, loc);
  }

  // ----- Hashing -----

  /** A character as a signed number of eight bits. */
  function CharValue(c: char): (r: int)
    ensures -128 <= r < 128 && (r - c as int) % 256 == 0
  {
    (c as int + 128) % 256 - 128
  }

  function SumFrom(name: string, i: nat): (r: int)
    requires i <= |name|
    decreases |name| - i
  {
    if i == |name| then 0 else CharValue(name[i]) + SumFrom(name, i + 1)
  }

  function Hash(name: string): (r: nat)
    ensures r < TABLE_SIZE
  {
    var first := if name == "" then 0 else CharValue(name[0]);
    (first * 16 + SumFrom(name, 0)) % 0x8000 % TABLE_SIZE
  }

  method HashValue(name: string) returns (h: nat)
    ensures h == Hash(name)
  {
    var first := if name == "" then 0 else CharValue(name[0]);
    var hashval, i: nat := first * 16, 0;
    while i < |name|
      invariant i <= |name| && hashval + SumFrom(name, i) == first * 16 + SumFrom(name, 0)
    {
      hashval := hashval + CharValue(name[i]);
      i := i + 1;
    }
    h := hashval % 0x8000 % TABLE_SIZE;
  }

  // ----- The search -----

  /** The search continues at entry idx, whose text starts at next. */
  ghost predicate Resumes(path: string, next: Option<nat>, idx: nat) {
    var cs := Comps(path, 0);
    && idx <= |cs|
    && if next.Some? then next.value <= |path| && cs[idx..] == Comps(path, next.value) else idx == |cs|
  }

  /** What one step over PATH tells about an entry. */
  ghost predicate Tells(path: string, c: Comp, name: string, full: string, opt: Option<nat>) {
    && full == Full(c.dir, name) && (opt.Some? <==> c.option.Some?)
    && (opt.Some? ==> opt.value <= |path| && (IsBuiltinComp(c) <==> PrefixAt("builtin", path, opt.value)))
  }

  lemma StepTells(path: string, st: nat, name: string, full: string, opt: Option<nat>, next: Option<nat>)
    requires Stepped(path, st, name, full, opt, next)
    ensures Tells(path, ParseComp(path[st..ColonAt(path, st)]), name, full, opt)
  {
    assert NoColon("builtin");
    if opt.Some? { PrefixInside("builtin", path, opt.value, ColonAt(path, st)); }
  }

  lemma Resumed(path: string, st: nat, idx: nat, next: Option<nat>)
    requires Resumes(path, Some(st), idx)
    requires next == if ColonAt(path, st) < |path| then Some(ColonAt(path, st) + 1) else None
    ensures idx < |Comps(path, 0)| && Resumes(path, next, idx + 1)
    ensures Comps(path, 0)[idx] == ParseComp(path[st..ColonAt(path, st)])
  {
    CompsHead(path, st);
    DropOne(Comps(path, 0), idx, Comps(path, st));
  }

  /** One step: the next candidate belongs to entry idx, and the search continues behind it. */
  method Step(path: string, st: nat, idx: nat, name: string) returns (full: string, opt: Option<nat>, next: Option<nat>)
    requires Resumes(path, Some(st), idx)
    ensures idx < |Comps(path, 0)| && Tells(path, Comps(path, 0)[idx], name, full, opt)
    ensures Resumes(path, next, idx + 1)
  {
    full, opt, next := Padvance(path, st, name);
    StepTells(path, st, name, full, opt, next);
    Resumed(path, st, idx, next);
  }

  /** The search loop of find_command. Its answer is that of the walk over the entries of PATH. */
  method SearchPath(env: Env, cwd: string, path: string, prev: int, name: string) returns (found: Found)
    ensures found == Walk(env, cwd, Comps(path, 0), 0, prev, name)
  {
    hide Comps;
    ghost var cs := Comps(path, 0);
    var next, idx := Some(0), 0;
    assert cs[0..] == cs;
    while next.Some?
      invariant Resumes(path, next, idx)
      invariant idx <= |cs| && Walk(env, cwd, cs, 0, prev, name) == Walk(env, cwd, cs, idx, prev, name)
      decreases |cs| - idx
    {
      var full, opt, rest := Step(path, next.value, idx, name);
      if opt.Some? {
        if PrefixAt("builtin", path, opt.value) && env.builtin(name) { return Blt; }
      } else if IsAbsolute(full) && idx <= prev {
        if idx == prev { return Same; }
      } else if Regular(env, cwd, full) {
        return File(idx);
      }
      next, idx := rest, idx + 1;
    }
    return Nothing;
  }

  // ----- The table -----

  /** The table of one shell, for a fixed set of files. */
  class Table {
    const env: Env
    const chains: array<seq<Entry<Cmd>>>
    var builtinloc: int
    var path: string
    var cwd: string
    // where the last look-up ended
    var lastchain: nat
    var lastplace: nat

    ghost predicate Valid()
      reads chains
    {
      chains.Length == TABLE_SIZE && forall b :: 0 <= b < TABLE_SIZE ==> Distinct(chains[b])
    }

    /** What the table says about a name. */
    ghost function Slot(name: string): (r: Option<Cmd>)
      requires chains.Length == TABLE_SIZE
      reads chains
    {
      Get(chains[Hash(name)], name)
    }

    /** Everything in the table can be trusted, for the present PATH and working directory. */
    ghost predicate Coherent()
      requires chains.Length == TABLE_SIZE
      reads this, chains
    {
      && Sees(Comps(path, 0), builtinloc)
      && forall n {:trigger Slot(n)} :: Trusted(env, cwd, Comps(path, 0), builtinloc, n, Slot(n))
    }

    /** The shell starts with an empty table, for a PATH without %builtin. */
    constructor (env: Env, path: string, cwd: string)
      ensures Valid() && fresh(chains) && (Coherent() <==> BuiltinLoc(Comps(path, 0), 0) < 0)
      ensures this.env == env && this.path == path && this.cwd == cwd && builtinloc == -1
      ensures forall n {:trigger Slot(n)} :: Slot(n) == None
    {
      this.env, this.path, this.cwd, builtinloc := env, path, cwd, -1;
      chains := new seq<Entry<Cmd>>[TABLE_SIZE](_ => []);
      lastchain, lastplace := 0, 0;
      new;
      assert forall b :: 0 <= b < TABLE_SIZE ==> chains[b] == [];
    }

    /** The last look-up was for this name, and where it ended. */
    ghost predicate LookedUp(name: string)
      requires chains.Length == TABLE_SIZE
      reads this, chains
    {
      lastchain == Hash(name) && lastplace == PlaceOf(chains[lastchain], name)
    }

    /** Look a name up, and add an empty entry if there is none and add is set. */
    method CmdLookup(name: string, add: bool) returns (found: Option<Cmd>)
      requires Valid()
      modifies this`lastchain, this`lastplace, chains
      ensures Valid() && LookedUp(name)
      ensures found == Slot(name)
      ensures Slot(name) == if add && old(Slot(name)) == None then Some(Cmd(NoCmd, false)) else old(Slot(name))
      ensures forall n {:trigger Slot(n)} :: n != name ==> Slot(n) == old(Slot(n))
    {
      var h := HashValue(name);
      var chain := chains[h];
      var i := FindPlace(chain, name);
      found := if i < |chain| then Some(chain[i].item) else None;
      if add && found == None {
        var e := Entry(name, Cmd(NoCmd, false));
        forall n
          ensures Distinct(chain + [e]) && Get(chain + [e], n) == if n == name then Some(e.item) else Get(chain, n)
        {
          GetAdded(chain, e, n);
        }
        chains[h] := chain + [e];
        PlaceIs(chains[h], name, i);
        found := Some(e.item);
      }
      lastchain, lastplace := h, i;
    }

    /** Write to the entry that the last look-up found. */
    method Store(cmd: Cmd, ghost name: string)
      requires Valid() && LookedUp(name) && Slot(name).Some?
      modifies chains
      ensures Valid() && LookedUp(name)
      ensures Slot(name) == Some(cmd)
      ensures forall n {:trigger Slot(n)} :: n != name ==> Slot(n) == old(Slot(n))
    {
      var chain := chains[lastchain];
      var after := chain[lastplace := Entry(chain[lastplace].name, cmd)];
      forall n
        ensures Distinct(after) && Get(after, n) == if n == name then Some(cmd) else Get(chain, n)
      {
        GetStored(chain, lastplace, cmd, n);
      }
      chains[lastchain] := after;
      PlaceIs(after, name, lastplace);
    }

    /** Delete the entry that the last look-up found. */
    method DeleteCmdEntry(ghost name: string)
      requires Valid() && LookedUp(name) && Slot(name).Some?
      modifies chains
      ensures Valid() && Slot(name) == None
      ensures forall n {:trigger Slot(n)} :: n != name ==> Slot(n) == old(Slot(n))
    {
      var chain := chains[lastchain];
      forall n
        ensures Distinct(Without(chain, lastplace))
        ensures Get(Without(chain, lastplace), n) == if n == name then None else Get(chain, n)
      {
        GetRemoved(chain, lastplace, n);
      }
      chains[lastchain] := chain[..lastplace] + chain[lastplace + 1..];
    }

    // ----- Looking a command up -----

    /** A builtin was found: the entry says so, unless it is a function that must not be seen. */
    method BuiltinSuccess(name: string) returns (a: Answer)
      requires Valid()
      modifies this`lastchain, this`lastplace, chains
      ensures Valid() && a == Builtin
      ensures Slot(name) == WithBuiltin(old(Slot(name)))
      ensures forall n {:trigger Slot(n)} :: n != name ==> Slot(n) == old(Slot(n))
    {
      var cmdp := CmdLookup(name, true);
      if !cmdp.value.kind.ShellFunction? { Store(Cmd(BuiltinCmd, false), name); }
      a := Builtin;
    }

    /** The end of find_command, after the search. */
    method Conclude(name: string, usable: Option<Cmd>, found: Found) returns (a: Answer)
      requires Valid() && LookedUp(name) && (usable.Some? ==> usable == Slot(name))
      modifies this`lastchain, this`lastplace, chains
      ensures Valid()
      ensures (a, Slot(name)) == After(old(Slot(name)), usable, found)
      ensures forall n {:trigger Slot(n)} :: n != name ==> Slot(n) == old(Slot(n))
    {
      match found
      case Same =>
        a := Unknown;
        if usable.Some? {
          Store(usable.value.(rehash := false), name);
          a := AnswerOf(usable.value.kind);
        }
      case File(i) =>
        var cmdp := CmdLookup(name, true);
        Store(Cmd(Program(i), false), name);
        a := Normal(i);
      case Blt => a := BuiltinSuccess(name);
      case Nothing =>
        if usable.Some? { DeleteCmdEntry(name); }
        a := Unknown;
    }

    method LookUp(name: string, noFunc: bool) returns (a: Answer)
      requires Valid()
      modifies this`lastchain, this`lastplace, chains
      ensures Valid()
      ensures (a, Slot(name)) == Resolve(env, cwd, Comps(path, 0), builtinloc, old(Slot(name)), noFunc, name)
      ensures forall n {:trigger Slot(n)} :: n != name ==> Slot(n) == old(Slot(n))
    {
      hide Valid, Slot, Comps;
      var usable := CmdLookup(name, false);
      if usable.Some? && ((usable.value.kind.ShellFunction? && noFunc)
                          || (usable.value.kind.BuiltinCmd? && builtinloc >= 0)) {
        usable := None;
      }
      if usable.Some? && !usable.value.rehash {
        a := AnswerOf(usable.value.kind);
      } else if builtinloc < 0 && env.builtin(name) {
        a := BuiltinSuccess(name);
      } else {
        var found := SearchPath(env, cwd, path, Previous(usable, builtinloc), name);
        a := Conclude(name, usable, found);
      }
    }

    /** find_command for the present PATH. The answer is what the name means, found without the table,
        if and only if builtinloc says rightly whether PATH has a %builtin entry, or that does not matter. */
    method FindCommand(name: string, noFunc: bool) returns (a: Answer)
      requires Valid()
      modifies this`lastchain, this`lastplace, chains
      ensures Valid()
      ensures '/' in name ==> a == Normal(0) && Slot(name) == old(Slot(name))
      ensures '/' !in name ==>
                (a, Slot(name)) == Resolve(env, cwd, Comps(path, 0), builtinloc, old(Slot(name)), noFunc, name)
      ensures forall n {:trigger Slot(n)} :: n != name ==> Slot(n) == old(Slot(n))
      ensures old(Coherent()) ==> Coherent()
      ensures old(Coherent()) && '/' !in name ==>
                (a == Meaning(env, cwd, Comps(path, 0), old(Slot(name)), noFunc, name)
                 <==> Agrees(Comps(path, 0), builtinloc) || !env.builtin(name) || Preset(old(Slot(name)), noFunc))
    {
      if '/' in name { return Normal(0); }
      ghost var coherent, slot := Coherent(), Slot(name);
      a := LookUp(name, noFunc);
      if coherent { ResolveFresh(env, cwd, Comps(path, 0), builtinloc, slot, noFunc, name); }
    }

    // ----- Changing directory and PATH -----

    /** hashcd: what a relative search found is in doubt. */
    method HashCd()
      requires Valid()
      modifies chains
      ensures Valid()
      ensures forall n {:trigger Slot(n)} :: Slot(n) == MarkedSlot(old(Slot(n)), builtinloc)
    {
      ghost var was := chains[..];
      var b := 0;
      while b < TABLE_SIZE
        invariant 0 <= b <= TABLE_SIZE
        invariant forall k :: 0 <= k < b ==> ChainMarked(was[k], chains[k], builtinloc)
        invariant forall k :: b <= k < TABLE_SIZE ==> chains[k] == was[k]
      {
        chains[b] := MarkChain(chains[b], builtinloc);
        b := b + 1;
      }
    }

    /** The cd command: the directory changes, and the table is told. */
    method ChangeDirectory(dir: string)
      requires Valid()
      modifies this`cwd, chains
      ensures Valid() && cwd == dir
      ensures forall n {:trigger Slot(n)} :: Slot(n) == MarkedSlot(old(Slot(n)), builtinloc)
      ensures old(Coherent()) ==> Coherent()
    {
      ghost var cs := Comps(path, 0);
      ghost var coherent, was := Coherent(), cwd;
      if coherent {
        forall n, c | Slot(n) == Some(c)
          ensures Trusted(env, dir, cs, builtinloc, n, Some(Marked(c, builtinloc)))
        {
          CdTrusted(env, cwd, dir, cs, builtinloc, c, n);
        }
      }
      cwd := dir;
      HashCd();
    }

    /** clearcmdentry: forget what depends on PATH from entry first on. */
    method ClearCmdEntry(first: int)
      requires Valid()
      modifies chains
      ensures Valid()
      ensures forall n {:trigger Slot(n)} :: Slot(n) == Cleared(old(Slot(n)), first, builtinloc)
    {
      ghost var was := chains[..];
      var b := 0;
      while b < TABLE_SIZE
        invariant 0 <= b <= TABLE_SIZE
        invariant forall k :: 0 <= k < b ==> ChainCleared(was[k], chains[k], first, builtinloc)
        invariant forall k :: b <= k < TABLE_SIZE ==> chains[k] == was[k]
      {
        chains[b] := ClearChain(chains[b], first, builtinloc);
        b := b + 1;
      }
    }

    /** changepath, and then the change of PATH itself. The first entry that differs is differ. The table stays
        right, whatever is taken for the %builtin entry. */
    method ChangePath(newval: string) returns (ghost differ: int)
      requires Valid()
      modifies this`path, this`builtinloc, chains
      ensures Valid() && path == newval && builtinloc == NamedLoc(Comps(newval, 0), 0)
      ensures Common(Comps(old(path), 0), Comps(newval, 0), differ)
      ensures if newval == old(path) then differ == NO_CHANGE
              else Differs(Comps(old(path), 0), Comps(newval, 0), differ)
      ensures forall n {:trigger Slot(n)} ::
                Slot(n) == Cleared(old(Slot(n)), ClearFirst(old(builtinloc), builtinloc, differ),
                                   ClearLoc(old(builtinloc), builtinloc))
      ensures old(Coherent()) ==> Coherent()
    {
      hide NamedLoc, Comps, Common, Differs, Slot;
      ghost var cs, cs' := Comps(path, 0), Comps(newval, 0);
      ghost var coherent, loc := Coherent(), builtinloc;
      var firstchange: int, bltin := ComparePaths(path, newval);
      differ := firstchange;
      NamedSees(cs');
      if coherent {
        forall n {:trigger Slot(n)}
          ensures Trusted(env, cwd, cs', bltin, n,
                          Cleared(Slot(n), ClearFirst(loc, bltin, differ), ClearLoc(loc, bltin)))
        {
          ChangeTrusted(env, cwd, cs, loc, cs', bltin, differ, Slot(n), n);
        }
      }
      if builtinloc < 0 && bltin >= 0 { builtinloc := bltin; }
      if builtinloc >= 0 && bltin < 0 { firstchange := 0; }
      ClearCmdEntry(firstchange);
      builtinloc := bltin;
      path := newval;
    }

    // ----- Functions -----

    /** defun: the function takes the entry of its name, with the mark that is there. */
    method Defun(name: string, bits: int)
      requires Valid()
      modifies this`lastchain, this`lastplace, chains
      ensures Valid() && Slot(name) == Some(Defined(old(Slot(name)), bits))
      ensures forall n {:trigger Slot(n)} :: n != name ==> Slot(n) == old(Slot(n))
      ensures old(Coherent()) && !(old(Slot(name)).Some? && old(Slot(name)).value.rehash) ==> Coherent()
    {
      var cmdp := CmdLookup(name, true);
      if !cmdp.value.kind.SpecialCmd? { Store(cmdp.value.(kind := ShellFunction(bits)), name); }
    }

    /** unsetfunc: whether there was no such function. */
    method UnsetFunc(name: string) returns (missing: bool)
      requires Valid()
      modifies this`lastchain, this`lastplace, chains
      ensures Valid() && Slot(name) == Undefined(old(Slot(name))) && missing == (Slot(name) == old(Slot(name)))
      ensures forall n {:trigger Slot(n)} :: n != name ==> Slot(n) == old(Slot(n))
      ensures old(Coherent()) ==> Coherent()
    {
      var cmdp := CmdLookup(name, false);
      missing := true;
      if cmdp.Some? && cmdp.value.kind.ShellFunction? {
        DeleteCmdEntry(name);
        missing := false;
      }
    }
  }
}
