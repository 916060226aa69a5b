/** Shell parse trees, and what they mean in terms of structured control flow. */
module ShellTree {
  import opened Bytes

  type Word = string

  datatype Tree =
    | Null
    | Semi(ch1: Tree, ch2: Tree)
    | And(ch1: Tree, ch2: Tree)
    | Or(ch1: Tree, ch2: Tree)
    | Not(com: Tree)
    | If(test: Tree, ifpart: Tree, elsepart: Tree)
    | Loop(until: bool, test: Tree, body: Tree)
    | For(name: string, args: seq<Word>, body: Tree)
    | Case(expr: Word, cases: Arms)
    | Defun(name: string, body: Tree)
    | Subshell(com: Tree)
    | Command(args: seq<Word>)
    | BreakCmd(n: int)
    | ContinueCmd(n: int)
    | ReturnCmd(status: Option<int>)

  datatype Arms = NoArms | Arm(patterns: seq<Word>, body: Tree, rest: Arms)

  /** What the shell works on, beyond control flow: simple commands, word expansion, assignment,
      pattern matching, function parameters, and what a subshell leaves behind. */
  datatype World<!E> = World(
    exec: (seq<string>, E, int) -> (E, int),
    expand: (seq<Word>, E) -> (seq<string>, E),
    assign: (string, string, E) -> E,
    matches: (Word, string, E) -> bool,
    enter: (E, seq<string>) -> E,
    leave: (E, E) -> E,
    join: (E, E) -> E)

  datatype State<E> = State(e: E, funs: map<string, Tree>, status: int)

  /** How a command ends. Break and Continue tell how many loops are still to be left. */
  datatype Out = Normal | Break(n: nat) | Continue(n: nat) | Return | OutOfFuel

  datatype Res<E> = Res(out: Out, st: State<E>)

  /** A pending break or continue concerns at least one and at most all enclosing loops. */
  predicate WithinLoops(out: Out, loops: nat) {
    match out
    case Break(n) => 1 <= n <= loops
    case Continue(n) => 1 <= n <= loops
    case _ => true
  }

  /** break and continue reach as far as there are loops; with no loop, or for 0, they do nothing. */
  function Skip(n: int, loops: nat, continuing: bool): (r: Out)
    ensures WithinLoops(r, loops)
  {
    var k := if n > loops then loops else n;
    if k <= 0 then Normal else if continuing then Continue(k) else Break(k)
  }

  /** What the end of a loop body, or of a loop's test, means for the loop. */
  datatype Turn = Again | Leave(out: Out)

  function EndOfTurn(out: Out): (r: Turn)
    ensures forall loops: nat :: WithinLoops(out, loops + 1) && r.Leave? ==> WithinLoops(r.out, loops)
  {
    match out
    case Normal => Again
    case Continue(n) => if n <= 1 then Again else Leave(Continue(n - 1))
    case Break(n) => if n <= 1 then Leave(Normal) else Leave(Break(n - 1))
    case Return => Leave(Return)
    case OutOfFuel => Leave(OutOfFuel)
  }

  function FindArm<E>(w: World<E>, arms: Arms, text: string, e: E): (r: Arms)
    ensures r.Arm? ==> r.body < arms
  {
    if arms.NoArms? then NoArms
    else if exists p :: p in arms.patterns && w.matches(p, text, e) then arms
    else FindArm(w, arms.rest, text, e)
  }

  /** The meaning of a tree inside so many loops and function calls. Fuel is used up by loop turns
      and function calls only. A loop ends with the status of its last body, whatever ended it;
      a negation negates the status of whatever was negated, even a break or return. */
  function Sem<E>(w: World<E>, t: Tree, st: State<E>, loops: nat, calls: nat, fuel: nat): (r: Res<E>)
    ensures WithinLoops(r.out, loops)
    decreases fuel, t, 1, 0
  {
    match t
    case Null => Res(Normal, st.(status := 0))
    case Semi(a, b) =>
      var r := Sem(w, a, st, loops, calls, fuel);
      if r.out.Normal? then Sem(w, b, r.st, loops, calls, fuel) else r
    case And(a, b) =>
      var r := Sem(w, a, st, loops, calls, fuel);
      if r.out.Normal? && r.st.status == 0 then Sem(w, b, r.st, loops, calls, fuel) else r
    case Or(a, b) =>
      var r := Sem(w, a, st, loops, calls, fuel);
      if r.out.Normal? && r.st.status != 0 then Sem(w, b, r.st, loops, calls, fuel) else r
    case Not(c) =>
      var r := Sem(w, c, st, loops, calls, fuel);
      Res(r.out, r.st.(status := if r.st.status == 0 then 1 else 0))
    case If(test, yes, no) =>
      var r := Sem(w, test, st, loops, calls, fuel);
      if !r.out.Normal? then r
      else if r.st.status == 0 then Sem(w, yes, r.st, loops, calls, fuel)
      else Sem(w, no, r.st, loops, calls, fuel)
    case Loop(_, _, _) => SemLoop(w, t, st, 0, loops, calls, fuel)
    case For(_, args, _) =>
      var (items, e) := w.expand(args, st.e);
      SemFor(w, t, items, st.(e := e), 0, loops, calls, fuel)
    case Case(expr, arms) =>
      var (texts, e) := w.expand([expr], st.e);
      var arm := FindArm(w, arms, if texts == [] then "" else texts[0], e);
      if arm.Arm? then Sem(w, arm.body, st.(e := e), loops, calls, fuel) else Res(Normal, st.(e := e, status := 0))
    case Defun(name, body) => Res(Normal, st.(funs := st.funs[name := body], status := 0))
    case Subshell(c) =>
      var r := Sem(w, c, st, loops, calls, fuel);
      if r.out.OutOfFuel? then r else Res(Normal, State(w.join(st.e, r.st.e), st.funs, r.st.status))
    case Command(args) =>
      var (texts, e) := w.expand(args, st.e);
      if texts == [] || texts[0] !in st.funs then
        var (e', status) := w.exec(texts, e, st.status);
        Res(Normal, st.(e := e', status := status))
      else if fuel == 0 then Res(OutOfFuel, st)
      else
        var r := Sem(w, st.funs[texts[0]], st.(e := w.enter(e, texts[1..])), loops, calls + 1, fuel - 1);
        Res(if r.out.Return? then Normal else r.out, r.st.(e := w.leave(e, r.st.e)))
    case BreakCmd(n) => Res(Skip(n, loops, false), st.(status := 0))
    case ContinueCmd(n) => Res(Skip(n, loops, true), st.(status := 0))
    case ReturnCmd(status) => Res(Return, st.(status := if status.Some? then status.value else st.status))
  }

  /** The rest of a while or until loop; last is the status of the last body. */
  function SemLoop<E>(w: World<E>, t: Tree, st: State<E>, last: int, loops: nat, calls: nat, fuel: nat): (r: Res<E>)
    requires t.Loop?
    ensures WithinLoops(r.out, loops)
    decreases fuel, t, 0, 0
  {
    var c := Sem(w, t.test, st, loops + 1, calls, fuel);
    if c.out.Normal? && (c.st.status == 0) == t.until then Res(Normal, c.st.(status := last))
    else
      var b := if c.out.Normal? then Sem(w, t.body, c.st, loops + 1, calls, fuel) else c;
      var last' := if c.out.Normal? then b.st.status else last;
      match EndOfTurn(b.out)
      case Leave(out) => Res(out, b.st.(status := last'))
      case Again => if fuel == 0 then Res(OutOfFuel, b.st) else SemLoop(w, t, b.st, last', loops, calls, fuel - 1)
  }

  /** The rest of a for loop. */
  function SemFor<E>(w: World<E>, t: Tree, items: seq<string>, st: State<E>, last: int, loops: nat, calls: nat,
                     fuel: nat): (r: Res<E>)
    requires t.For?
    ensures WithinLoops(r.out, loops)
    decreases fuel, t, 0, |items|
  {
    if items == [] then Res(Normal, st.(status := last))
    else
      var b := Sem(w, t.body, st.(e := w.assign(t.name, items[0], st.e)), loops + 1, calls, fuel);
      match EndOfTurn(b.out)
      case Leave(out) => Res(out, b.st.(status := b.st.status))
      case Again => SemFor(w, t, items[1..], b.st, b.st.status, loops, calls, fuel)
  }

  /** No break or continue gets out of all loops. */
  lemma NoneAtTopLevel<E>(w: World<E>, t: Tree, st: State<E>, calls: nat, fuel: nat)
    ensures var out := Sem(w, t, st, 0, calls, fuel).out; !out.Break? && !out.Continue?
  {
    assert WithinLoops(Sem(w, t, st, 0, calls, fuel).out, 0);
  }

  /** A result reached with some fuel is reached with any more: fuel only cuts off runs. */
  lemma {:induction false} MoreFuel<E>(w: World<E>, t: Tree, st: State<E>, loops: nat, calls: nat, fuel: nat, more: nat)
    requires fuel <= more && !Sem(w, t, st, loops, calls, fuel).out.OutOfFuel?
    ensures Sem(w, t, st, loops, calls, more) == Sem(w, t, st, loops, calls, fuel)
    decreases fuel, t, 1, 0
  {
    match t
    case Null =>
    case Semi(a, b) => MoreFuelBoth(w, t, a, b, st, loops, calls, fuel, more);
    case And(a, b) => MoreFuelBoth(w, t, a, b, st, loops, calls, fuel, more);
    case Or(a, b) => MoreFuelBoth(w, t, a, b, st, loops, calls, fuel, more);
    case Not(c) => MoreFuel(w, c, st, loops, calls, fuel, more);
    case If(test, yes, no) =>
      MoreFuel(w, test, st, loops, calls, fuel, more);
      var r := Sem(w, test, st, loops, calls, fuel);
      if r.out.Normal? {
        if r.st.status == 0 { MoreFuel(w, yes, r.st, loops, calls, fuel, more); }
        else { MoreFuel(w, no, r.st, loops, calls, fuel, more); }
      }
    case Loop(_, _, _) => MoreFuelLoop(w, t, st, 0, loops, calls, fuel, more);
    case For(_, args, _) =>
      var (items, e) := w.expand(args, st.e);
      MoreFuelFor(w, t, items, st.(e := e), 0, loops, calls, fuel, more);
    case Case(expr, arms) =>
      var (texts, e) := w.expand([expr], st.e);
      var arm := FindArm(w, arms, if texts == [] then "" else texts[0], e);
      if arm.Arm? { MoreFuel(w, arm.body, st.(e := e), loops, calls, fuel, more); }
    case Defun(_, _) =>
    case Subshell(c) => MoreFuel(w, c, st, loops, calls, fuel, more);
    case Command(args) =>
      var (texts, e) := w.expand(args, st.e);
      if texts != [] && texts[0] in st.funs {
        MoreFuel(w, st.funs[texts[0]], st.(e := w.enter(e, texts[1..])), loops, calls + 1, fuel - 1, more - 1);
      }
    case BreakCmd(_) =>
    case ContinueCmd(_) =>
    case ReturnCmd(_) =>
  }

  lemma {:induction false} MoreFuelBoth<E>(w: World<E>, t: Tree, a: Tree, b: Tree, st: State<E>, loops: nat, calls: nat,
                                           fuel: nat, more: nat)
    requires fuel <= more && a < t && b < t
    ensures var r := Sem(w, a, st, loops, calls, fuel);
            && (!r.out.OutOfFuel? ==> Sem(w, a, st, loops, calls, more) == r)
            && (r.out.Normal? && !Sem(w, b, r.st, loops, calls, fuel).out.OutOfFuel? ==>
                  Sem(w, b, r.st, loops, calls, more) == Sem(w, b, r.st, loops, calls, fuel))
    decreases fuel, t, 0, 0
  {
    var r := Sem(w, a, st, loops, calls, fuel);
    if !r.out.OutOfFuel? { MoreFuel(w, a, st, loops, calls, fuel, more); }
    if r.out.Normal? && !Sem(w, b, r.st, loops, calls, fuel).out.OutOfFuel? {
      MoreFuel(w, b, r.st, loops, calls, fuel, more);
    }
  }

  lemma {:induction false} MoreFuelLoop<E>(w: World<E>, t: Tree, st: State<E>, last: int, loops: nat, calls: nat,
                                           fuel: nat, more: nat)
    requires t.Loop? && fuel <= more && !SemLoop(w, t, st, last, loops, calls, fuel).out.OutOfFuel?
    ensures SemLoop(w, t, st, last, loops, calls, more) == SemLoop(w, t, st, last, loops, calls, fuel)
    decreases fuel, t, 0, 0
  {
    var c := Sem(w, t.test, st, loops + 1, calls, fuel);
    MoreFuel(w, t.test, st, loops + 1, calls, fuel, more);
    if !(c.out.Normal? && (c.st.status == 0) == t.until) {
      var b := if c.out.Normal? then Sem(w, t.body, c.st, loops + 1, calls, fuel) else c;
      if c.out.Normal? { MoreFuel(w, t.body, c.st, loops + 1, calls, fuel, more); }
      var last' := if c.out.Normal? then b.st.status else last;
      if EndOfTurn(b.out).Again? { MoreFuelLoop(w, t, b.st, last', loops, calls, fuel - 1, more - 1); }
    }
  }

  lemma {:induction false} MoreFuelFor<E>(w: World<E>, t: Tree, items: seq<string>, st: State<E>, last: int, loops: nat,
                                          calls: nat, fuel: nat, more: nat)
    requires t.For? && fuel <= more && !SemFor(w, t, items, st, last, loops, calls, fuel).out.OutOfFuel?
    ensures SemFor(w, t, items, st, last, loops, calls, more) == SemFor(w, t, items, st, last, loops, calls, fuel)
    decreases fuel, t, 0, |items|
  {
    if items != [] {
      var st1 := st.(e := w.assign(t.name, items[0], st.e));
      var b := Sem(w, t.body, st1, loops + 1, calls, fuel);
      MoreFuel(w, t.body, st1, loops + 1, calls, fuel, more);
      if EndOfTurn(b.out).Again? { MoreFuelFor(w, t, items[1..], b.st, b.st.status, loops, calls, fuel, more); }
    }
  }

  /** A return that comes out of the test of a loop, in whatever turn, loses its status: the loop ends with the status
      of the last body before it, or 0. */
  lemma ReturnInTest<E>(w: World<E>, t: Tree, st: State<E>, last: int, loops: nat, calls: nat, fuel: nat)
    requires t.Loop? && Sem(w, t.test, st, loops + 1, calls, fuel).out.Return?
    ensures var st' := Sem(w, t.test, st, loops + 1, calls, fuel).st;
            && SemLoop(w, t, st, last, loops, calls, fuel) == Res(Return, st'.(status := last))
            && Sem(w, t, st, loops, calls, fuel) == Res(Return, st'.(status := 0))
  {
    assert EndOfTurn(Return) == Leave(Return);
  }
}
