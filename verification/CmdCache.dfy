/** What the command table remembers about one name, and how long it may be trusted. */
module CmdCache {
  import opened Bytes
  import opened PathSearch

  /** The kind of an entry. A function's parameter is a pointer: bits is what it reads as as a number. */
  datatype Kind = Program(index: int) | ShellFunction(bits: int) | BuiltinCmd | SpecialCmd | NoCmd

  datatype Cmd = Cmd(kind: Kind, rehash: bool)

  function AnswerOf(kind: Kind): (r: Answer) {
    match kind
    case Program(i) => Normal(i)
    case ShellFunction(_) => Function
    case BuiltinCmd => Builtin
    case SpecialCmd => Special
    case NoCmd => Unknown
  }

  // ----- One search, with or without something remembered -----

  datatype Found = Same | File(index: int) | Blt | Nothing

  /** The search that does not look at absolute names up to entry prev again. */
  function Walk(env: Env, cwd: string, cs: seq<Comp>, k: nat, prev: int, name: string): (r: Found)
    requires k <= |cs|
    decreases |cs| - k
  {
    if k == |cs| then Nothing
    else if IsBuiltinComp(cs[k]) then (if env.builtin(name) then Blt else Walk(env, cwd, cs, k + 1, prev, name))
    else if cs[k].option.Some? then Walk(env, cwd, cs, k + 1, prev, name)
    else if IsAbsolute(Full(cs[k].dir, name)) && k <= prev then
      (if k == prev then Same else Walk(env, cwd, cs, k + 1, prev, name))
    else if Regular(env, cwd, Full(cs[k].dir, name)) then File(k)
    else Walk(env, cwd, cs, k + 1, prev, name)
  }

  function FoundAnswer(f: Found, prev: int): (r: Answer) {
    match f
    case Same => Normal(prev)
    case File(i) => Normal(i)
    case Blt => Builtin
    case Nothing => Unknown
  }

  /** Skipping the absolute names is right when the entry at prev was found by an earlier search. */
  lemma {:induction false} WalkFinds(env: Env, cwd: string, cs: seq<Comp>, k: nat, prev: int, name: string)
    requires k <= |cs| && (prev == -1 || Known(env, cs, prev, name))
    ensures FoundAnswer(Walk(env, cwd, cs, k, prev, name), prev) == SearchFrom(env, cwd, cs, k, name)
    decreases |cs| - k
  {
    if k < |cs| {
      if k < prev && !Relative(cs[k], name) { assert !Stops(env, "", cs[k], name); }
      WalkFinds(env, cwd, cs, k + 1, prev, name);
    }
  }

  lemma {:induction false} SameBelow(env: Env, cwd: string, cs: seq<Comp>, k: nat, prev: int, name: string)
    requires k <= |cs| && Walk(env, cwd, cs, k, prev, name) == Same
    ensures k <= prev < |cs|
    decreases |cs| - k
  {
    if !(IsAbsolute(Full(cs[k].dir, name)) && k == prev && cs[k].option.None?) {
      SameBelow(env, cwd, cs, k + 1, prev, name);
    }
  }

  lemma {:induction false} BltPlaced(env: Env, cwd: string, cs: seq<Comp>, k: nat, prev: int, name: string)
    requires k <= |cs| && Walk(env, cwd, cs, k, prev, name) == Blt
    ensures exists j :: k <= j < |cs| && IsBuiltinComp(cs[j])
    decreases |cs| - k
  {
    if !IsBuiltinComp(cs[k]) || !env.builtin(name) { BltPlaced(env, cwd, cs, k + 1, prev, name); }
  }

  // ----- One look-up -----

  /** The entry that a look-up may use: not a function it must not see, nor a builtin that PATH places. */
  function Usable(slot: Option<Cmd>, loc: int, noFunc: bool): (r: Option<Cmd>) {
    if slot.Some? && ((slot.value.kind.ShellFunction? && noFunc) || (slot.value.kind.BuiltinCmd? && loc >= 0)) then None
    else slot
  }

  /** Where a search that has an entry starts to look at absolute names: the index in the entry's
      parameter, whatever is there. */
  function Previous(usable: Option<Cmd>, loc: int): (r: int) {
    if usable.None? then -1 else
    match usable.value.kind
    case Program(i) => i
    case ShellFunction(bits) => bits
    case BuiltinCmd => loc
    case SpecialCmd => -1
    case NoCmd => -1
  }

  /** The entry after a builtin was found: a function that must not be seen stays. */
  function WithBuiltin(slot: Option<Cmd>): (r: Option<Cmd>) {
    if slot.Some? && slot.value.kind.ShellFunction? then slot else Some(Cmd(BuiltinCmd, false))
  }

  /** The answer after a search, and what the table remembers then. */
  function After(slot: Option<Cmd>, usable: Option<Cmd>, found: Found): (r: (Answer, Option<Cmd>)) {
    match found
    case Same => if usable.Some? then (AnswerOf(usable.value.kind), Some(usable.value.(rehash := false)))
        else (Unknown, slot)
    case File(i) => (Normal(i), Some(Cmd(Program(i), false)))
    case Blt => (Builtin, WithBuiltin(slot))
    case Nothing => (Unknown, if usable.Some? then None else slot)
  }

  /** The answer for a name, and what the table remembers about it afterwards. */
  function Resolve(env: Env, cwd: string, cs: seq<Comp>, loc: int, slot: Option<Cmd>, noFunc: bool, name: string):
    (r: (Answer, Option<Cmd>))
  {
    var usable := Usable(slot, loc, noFunc);
    if usable.Some? && !usable.value.rehash then (AnswerOf(usable.value.kind), slot)
    else if loc < 0 && env.builtin(name) then (Builtin, WithBuiltin(slot))
    else After(slot, usable, Walk(env, cwd, cs, 0, Previous(usable, loc), name))
  }

  /** What the name means: a special builtin or a function first, then what a fresh search says. */
  function Meaning(env: Env, cwd: string, cs: seq<Comp>, slot: Option<Cmd>, noFunc: bool, name: string): (r: Answer) {
    if slot.Some? && slot.value.kind.SpecialCmd? then Special
    else if slot.Some? && slot.value.kind.ShellFunction? && !noFunc then Function
    else Fresh(env, cwd, cs, name)
  }

  /** No %builtin entry of PATH is overlooked. */
  predicate Sees(cs: seq<Comp>, loc: int) {
    loc < 0 ==> BuiltinLoc(cs, 0) < 0
  }

  /** builtinloc says rightly whether PATH has a %builtin entry. */
  predicate Agrees(cs: seq<Comp>, loc: int) {
    loc < 0 <==> BuiltinLoc(cs, 0) < 0
  }

  /** The place that changepath finds overlooks no %builtin entry. */
  lemma NamedSees(cs: seq<Comp>)
    ensures Sees(cs, NamedLoc(cs, 0))
  {
    hide NamesBuiltin, IsBuiltinComp;
    var b := BuiltinLoc(cs, 0);
    if b >= 0 { BuiltinNames(cs[b]); }
  }

  /** What the entry of a name says is still so, or is marked as to be checked; loc is builtinloc. */
  ghost predicate Trusted(env: Env, cwd: string, cs: seq<Comp>, loc: int, name: string, slot: Option<Cmd>) {
    slot.None? ||
    match slot.value.kind
    case Program(i) =>
      && (if slot.value.rehash then Known(env, cs, i, name) else Hit(env, cwd, cs, i, name))
      && !(loc < 0 && env.builtin(name))
    case ShellFunction(_) => !slot.value.rehash
    case SpecialCmd => !slot.value.rehash
    case BuiltinCmd => loc < 0 ==> env.builtin(name) && !slot.value.rehash
    case NoCmd => false
  }

  /** The answer is in the entry, whatever PATH is: a special builtin, or a function that may be seen. */
  predicate Preset(slot: Option<Cmd>, noFunc: bool) {
    slot.Some? && (slot.value.kind.SpecialCmd? || (slot.value.kind.ShellFunction? && !noFunc))
  }

  /** When the remembered answer is the fresh one: if and only if builtinloc says rightly whether PATH has a %builtin
      entry, or that does not matter for the name. What is remembered afterwards can be trusted again. */
  lemma ResolveFresh(env: Env, cwd: string, cs: seq<Comp>, loc: int, slot: Option<Cmd>, noFunc: bool, name: string)
    requires Sees(cs, loc) && Trusted(env, cwd, cs, loc, name, slot)
    ensures Resolve(env, cwd, cs, loc, slot, noFunc, name).0 == Meaning(env, cwd, cs, slot, noFunc, name)
            <==> Agrees(cs, loc) || !env.builtin(name) || Preset(slot, noFunc)
    ensures Trusted(env, cwd, cs, loc, name, Resolve(env, cwd, cs, loc, slot, noFunc, name).1)
  {
    var usable := Usable(slot, loc, noFunc);
    if usable.Some? && !usable.value.rehash {
      if usable.value.kind.Program? { SearchHits(env, cwd, cs, 0, usable.value.kind.index, name); }
    } else if !(loc < 0 && env.builtin(name)) {
      var prev := Previous(usable, loc);
      WalkFinds(env, cwd, cs, 0, prev, name);
      match Walk(env, cwd, cs, 0, prev, name)
      case Same =>
        SameBelow(env, cwd, cs, 0, prev, name);
        SearchHits(env, cwd, cs, 0, prev, name);
      case File(i) => SearchHits(env, cwd, cs, 0, i, name);
      case Blt => BltPlaced(env, cwd, cs, 0, prev, name);
      case Nothing =>
    }
  }

  /** With PATH=%func%builtin no builtin is found, although PATH says nothing of where builtins come. */
  lemma BuiltinLost(env: Env, cwd: string, name: string, noFunc: bool)
    requires env.builtin(name)
    ensures var cs := [Comp("", Some("func%builtin"))];
            && Resolve(env, cwd, cs, NamedLoc(cs, 0), None, noFunc, name).0 == Unknown
            && Meaning(env, cwd, cs, None, noFunc, name) == Builtin
  {
    var c := Comp("", Some("func%builtin"));
    var cs := [c];
    NamedNotBuiltin("");
    assert NamedLoc(cs, 0) == 0;
    assert BuiltinLoc(cs, 1) == -1 && BuiltinLoc(cs, 0) == -1;
    assert Walk(env, cwd, cs, 1, -1, name) == Nothing && Walk(env, cwd, cs, 0, -1, name) == Nothing;
  }

  /** A look-up that must not see functions forgets a function exactly when it finds a file instead. */
  lemma FunctionForgotten(env: Env, cwd: string, cs: seq<Comp>, loc: int, bits: int, name: string)
    ensures var slot := Some(Cmd(ShellFunction(bits), false));
            && var (answer, after) := Resolve(env, cwd, cs, loc, slot, true, name);
            && (after == slot <==> !answer.Normal?)
            && (Agrees(cs, loc) ==> answer == Fresh(env, cwd, cs, name))
  {
    WalkFinds(env, cwd, cs, 0, -1, name);
    if Walk(env, cwd, cs, 0, -1, name) == Same { SameBelow(env, cwd, cs, 0, -1, name); }
  }

  // ----- Changing directory, PATH, and functions -----

  /** After cd, what a search found must be checked again. */
  function Marked(c: Cmd, loc: int): (r: Cmd) {
    if c.kind.Program? || (c.kind.BuiltinCmd? && loc >= 0) then c.(rehash := true) else c
  }

  function MarkedSlot(slot: Option<Cmd>, loc: int): (r: Option<Cmd>) {
    if slot.Some? then Some(Marked(slot.value, loc)) else None
  }

  lemma CdTrusted(env: Env, cwd: string, cwd': string, cs: seq<Comp>, loc: int, c: Cmd, name: string)
    requires Trusted(env, cwd, cs, loc, name, Some(c))
    ensures Trusted(env, cwd', cs, loc, name, Some(Marked(c, loc)))
  {
    if c.kind.Program? && !c.rehash { HitKnown(env, cwd, cs, c.kind.index, name); }
  }

  /** What clearing from entry first on forgets. */
  predicate Dropped(c: Cmd, first: int, loc: int) {
    (c.kind.Program? && c.kind.index >= first) || (c.kind.BuiltinCmd? && loc >= first)
  }

  /** The location of %builtin that clearing uses when PATH changes: the old, or the new if there was none. */
  function ClearLoc(loc: int, bltin: int): (r: int) {
    if loc < 0 && bltin >= 0 then bltin else loc
  }

  /** Everything goes when %builtin leaves PATH. */
  function ClearFirst(loc: int, bltin: int, firstchange: int): (r: int) {
    if ClearLoc(loc, bltin) >= 0 && bltin < 0 then 0 else firstchange
  }

  function Cleared(slot: Option<Cmd>, first: int, loc: int): (r: Option<Cmd>) {
    if slot.Some? && Dropped(slot.value, first, loc) then None else slot
  }

  /** What is kept when PATH changes can be trusted for the new PATH, whatever is taken for the place of %builtin. */
  lemma ChangeTrusted(env: Env, cwd: string, cs: seq<Comp>, loc: int, cs': seq<Comp>, bltin: int, firstchange: int,
                      slot: Option<Cmd>, name: string)
    requires Trusted(env, cwd, cs, loc, name, slot) && Common(cs, cs', firstchange)
    ensures Trusted(env, cwd, cs', bltin, name,
                    Cleared(slot, ClearFirst(loc, bltin, firstchange), ClearLoc(loc, bltin)))
  {
    if slot.Some? && slot.value.kind.Program? {
      var i := slot.value.kind.index;
      if i < firstchange { SameUpTo(env, cwd, cs, cs', i, name); }
    }
  }

  /** A function takes the entry of its name, unless that is a special builtin. The mark stays. */
  function Defined(slot: Option<Cmd>, bits: int): (r: Cmd) {
    match slot
    case None => Cmd(ShellFunction(bits), false)
    case Some(c) => if c.kind.SpecialCmd? then c else c.(kind := ShellFunction(bits))
  }

  /** A function just defined is found exactly when the entry it took was not marked: then the entry
      can be trusted, and otherwise the pointer is taken for the index of a PATH entry. */
  lemma DefinedFound(env: Env, cwd: string, cs: seq<Comp>, loc: int, slot: Option<Cmd>, bits: int, name: string)
    requires Trusted(env, cwd, cs, loc, name, slot) && !(slot.Some? && slot.value.kind.SpecialCmd?)
    requires bits < 0 || bits >= |cs|
    ensures Trusted(env, cwd, cs, loc, name, Some(Defined(slot, bits))) <==> !(slot.Some? && slot.value.rehash)
    ensures Resolve(env, cwd, cs, loc, Some(Defined(slot, bits)), false, name).0 == Function
            <==> !(slot.Some? && slot.value.rehash)
  {
    if Walk(env, cwd, cs, 0, bits, name) == Same { SameBelow(env, cwd, cs, 0, bits, name); }
  }

  function Undefined(slot: Option<Cmd>): (r: Option<Cmd>) {
    if slot.Some? && slot.value.kind.ShellFunction? then None else slot
  }

  // ----- Whole runs -----

  /** What matters to one name: the working directory, PATH, builtinloc, and its entry. */
  datatype Life = Life(cwd: string, cs: seq<Comp>, loc: int, slot: Option<Cmd>)

  /** The calls that may touch the entry of the name. Where PATH changes, differ is where the comparison
      found the first difference. */
  datatype Call = Find(noFunc: bool) | Cd(dir: string) | NewPath(cs: seq<Comp>, differ: int) | Define(bits: int)
    | Undefine

  function Live(env: Env, l: Life, call: Call, name: string): (r: Life) {
    match call
    case Find(noFunc) => l.(slot := Resolve(env, l.cwd, l.cs, l.loc, l.slot, noFunc, name).1)
    case Cd(dir) => l.(cwd := dir, slot := MarkedSlot(l.slot, l.loc))
    case NewPath(cs, differ) =>
      var bltin := NamedLoc(cs, 0);
      Life(l.cwd, cs, bltin, Cleared(l.slot, ClearFirst(l.loc, bltin, differ), ClearLoc(l.loc, bltin)))
    case Define(bits) => l.(slot := Some(Defined(l.slot, bits)))
    case Undefine => l.(slot := Undefined(l.slot))
  }

  /** The comparison is right, and no function takes a marked entry. */
  ghost predicate Allowed(l: Life, call: Call) {
    && (call.NewPath? ==> Common(l.cs, call.cs, call.differ))
    && (call.Define? ==> !(l.slot.Some? && l.slot.value.rehash))
  }

  function Lives(env: Env, l: Life, calls: seq<Call>, name: string): (r: Life) {
    if calls == [] then l
    else Live(env, Lives(env, l, calls[..|calls| - 1], name), calls[|calls| - 1], name)
  }

  ghost predicate AllAllowed(env: Env, l: Life, calls: seq<Call>, name: string) {
    calls == [] ||
    (AllAllowed(env, l, calls[..|calls| - 1], name)
     && Allowed(Lives(env, l, calls[..|calls| - 1], name), calls[|calls| - 1]))
  }

  ghost predicate Right(env: Env, l: Life, name: string) {
    Sees(l.cs, l.loc) && Trusted(env, l.cwd, l.cs, l.loc, name, l.slot)
  }

  lemma LiveRight(env: Env, l: Life, call: Call, name: string)
    requires Right(env, l, name) && Allowed(l, call)
    ensures Right(env, Live(env, l, call, name), name)
  {
    hide NamedLoc, Resolve;
    match call
    case Find(noFunc) => ResolveFresh(env, l.cwd, l.cs, l.loc, l.slot, noFunc, name);
    case Cd(dir) => if l.slot.Some? { CdTrusted(env, l.cwd, dir, l.cs, l.loc, l.slot.value, name); }
    case NewPath(cs, differ) =>
      NamedSees(cs);
      ChangeTrusted(env, l.cwd, l.cs, l.loc, cs, NamedLoc(cs, 0), differ, l.slot, name);
    case Define(bits) =>
    case Undefine =>
  }

  lemma {:induction false} LivesRight(env: Env, l: Life, calls: seq<Call>, name: string)
    requires Right(env, l, name) && AllAllowed(env, l, calls, name)
    ensures Right(env, Lives(env, l, calls, name), name)
    decreases |calls|
  {
    if calls != [] {
      LivesRight(env, l, calls[..|calls| - 1], name);
      LiveRight(env, Lives(env, l, calls[..|calls| - 1], name), calls[|calls| - 1], name);
    }
  }

  /** A name has no entry or is a special builtin, as at the start of the shell. */
  predicate AtStart(l: Life) {
    Sees(l.cs, l.loc) && (l.slot == None || l.slot == Some(Cmd(SpecialCmd, false)))
  }

  /** After any run from the start, through any values of PATH, the remembered answer is the one of a fresh search if
      and only if builtinloc says rightly whether the present PATH has a %builtin entry, or that does not matter for
      the name: it is no builtin, or the answer is in its entry. */
  lemma RunFresh(env: Env, start: Life, calls: seq<Call>, name: string, noFunc: bool)
    requires AtStart(start) && AllAllowed(env, start, calls, name)
    ensures var l := Lives(env, start, calls, name);
            Resolve(env, l.cwd, l.cs, l.loc, l.slot, noFunc, name).0 == Meaning(env, l.cwd, l.cs, l.slot, noFunc, name)
            <==> Agrees(l.cs, l.loc) || !env.builtin(name) || Preset(l.slot, noFunc)
  {
    LivesRight(env, start, calls, name);
    var l := Lives(env, start, calls, name);
    ResolveFresh(env, l.cwd, l.cs, l.loc, l.slot, noFunc, name);
  }

  /** The last value that PATH was given, and what changepath takes for its %builtin entry. */
  function LastPath(start: Life, calls: seq<Call>): (r: (seq<Comp>, int)) {
    if calls == [] then (start.cs, start.loc)
    else if calls[|calls| - 1].NewPath? then (calls[|calls| - 1].cs, NamedLoc(calls[|calls| - 1].cs, 0))
    else LastPath(start, calls[..|calls| - 1])
  }

  /** So it depends on the last value of PATH alone, not on those before it. */
  lemma {:induction false} LastPathCounts(env: Env, start: Life, calls: seq<Call>, name: string)
    ensures var l := Lives(env, start, calls, name); (l.cs, l.loc) == LastPath(start, calls)
    decreases |calls|
  {
    if calls != [] { LastPathCounts(env, start, calls[..|calls| - 1], name); }
  }
}
