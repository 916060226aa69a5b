/** Laws of the shell's control flow, for all commands: what each construct runs, and what break, continue and
    return leave out. */
module ShellLaws {
  import opened Bytes
  import opened ShellTree

  // ----- Lists and tests -----

  /** What is run after a command that ends normally, by whether it succeeded. */
  lemma RunsNext<E>(w: World<E>, a: Tree, b: Tree, c: Tree, st: State<E>, loops: nat, calls: nat, fuel: nat)
    requires Sem(w, a, st, loops, calls, fuel).out.Normal?
    ensures var r := Sem(w, a, st, loops, calls, fuel);
            var next, other := Sem(w, b, r.st, loops, calls, fuel), Sem(w, c, r.st, loops, calls, fuel);
            var succeeded := r.st.status == 0;
            && Sem(w, Semi(a, b), st, loops, calls, fuel) == next
            && Sem(w, And(a, b), st, loops, calls, fuel) == (if succeeded then next else r)
            && Sem(w, Or(a, b), st, loops, calls, fuel) == (if succeeded then r else next)
            && Sem(w, If(a, b, c), st, loops, calls, fuel) == (if succeeded then next else other)
            && Sem(w, Not(a), st, loops, calls, fuel) == Res(Normal, r.st.(status := if succeeded then 1 else 0))
  {
  }

  /** Nothing is run after a command that is to leave a loop or a function. */
  lemma RunsNothing<E>(w: World<E>, a: Tree, b: Tree, c: Tree, st: State<E>, loops: nat, calls: nat, fuel: nat)
    requires !Sem(w, a, st, loops, calls, fuel).out.Normal?
    ensures var r := Sem(w, a, st, loops, calls, fuel);
            && Sem(w, Semi(a, b), st, loops, calls, fuel) == r && Sem(w, And(a, b), st, loops, calls, fuel) == r
            && Sem(w, Or(a, b), st, loops, calls, fuel) == r && Sem(w, If(a, b, c), st, loops, calls, fuel) == r
  {
  }

  function Flipped<E>(st: State<E>): (r: State<E>) {
    st.(status := if st.status == 0 then 1 else 0)
  }

  /** A negation flips the status, however the command ends. */
  lemma NotFlips<E>(w: World<E>, a: Tree, st: State<E>, loops: nat, calls: nat, fuel: nat)
    ensures var r := Sem(w, a, st, loops, calls, fuel);
            Sem(w, Not(a), st, loops, calls, fuel) == Res(r.out, Flipped(r.st))
  {
  }

  /** De Morgan's law holds for commands, whatever they do and however they end, if the second does not look at the
      status of the one before it. */
  lemma DeMorgan<E>(w: World<E>, a: Tree, b: Tree, st: State<E>, loops: nat, calls: nat, fuel: nat)
    requires var r := Sem(w, a, st, loops, calls, fuel).st;
             Sem(w, b, Flipped(r), loops, calls, fuel) == Sem(w, b, r, loops, calls, fuel)
    ensures Sem(w, Not(And(a, b)), st, loops, calls, fuel) == Sem(w, Or(Not(a), Not(b)), st, loops, calls, fuel)
    ensures Sem(w, Not(Or(a, b)), st, loops, calls, fuel) == Sem(w, And(Not(a), Not(b)), st, loops, calls, fuel)
  {
    hide Sem;
    var r := Sem(w, a, st, loops, calls, fuel);
    NotFlips(w, a, st, loops, calls, fuel);
    NotFlips(w, And(a, b), st, loops, calls, fuel);
    NotFlips(w, Or(a, b), st, loops, calls, fuel);
    if r.out.Normal? {
      NotFlips(w, b, r.st, loops, calls, fuel);
      NotFlips(w, b, Flipped(r.st), loops, calls, fuel);
      RunsNext(w, Not(a), Not(b), Null, st, loops, calls, fuel);
      RunsNext(w, a, b, Null, st, loops, calls, fuel);
    } else {
      RunsNothing(w, Not(a), Not(b), Null, st, loops, calls, fuel);
      RunsNothing(w, a, b, Null, st, loops, calls, fuel);
    }
  }

  /** Lists associate. */
  lemma SemiAssociates<E>(w: World<E>, a: Tree, b: Tree, c: Tree, st: State<E>, loops: nat, calls: nat, fuel: nat)
    ensures Sem(w, Semi(Semi(a, b), c), st, loops, calls, fuel) == Sem(w, Semi(a, Semi(b, c)), st, loops, calls, fuel)
  {
    hide Sem;
    var r := Sem(w, a, st, loops, calls, fuel);
    if r.out.Normal? {
      var q := Sem(w, b, r.st, loops, calls, fuel);
      RunsNext(w, a, b, Null, st, loops, calls, fuel);
      RunsNext(w, a, Semi(b, c), Null, st, loops, calls, fuel);
      if q.out.Normal? {
        RunsNext(w, b, c, Null, r.st, loops, calls, fuel);
        RunsNext(w, Semi(a, b), c, Null, st, loops, calls, fuel);
      } else {
        RunsNothing(w, b, c, Null, r.st, loops, calls, fuel);
        RunsNothing(w, Semi(a, b), c, Null, st, loops, calls, fuel);
      }
    } else {
      RunsNothing(w, a, b, Null, st, loops, calls, fuel);
      RunsNothing(w, a, Semi(b, c), Null, st, loops, calls, fuel);
      RunsNothing(w, Semi(a, b), c, Null, st, loops, calls, fuel);
    }
  }

  /** Arm number k of a case. */
  function ArmAt(arms: Arms, k: nat): (r: Arms)
    ensures r.Arm? ==> r.body < arms
  {
    if arms.NoArms? then NoArms else if k == 0 then arms else ArmAt(arms.rest, k - 1)
  }

  ghost predicate ArmMatches<E>(w: World<E>, arms: Arms, k: nat, text: string, e: E) {
    ArmAt(arms, k).Arm? && exists p :: p in ArmAt(arms, k).patterns && w.matches(p, text, e)
  }

  /** A case runs the first arm of which a pattern matches. */
  lemma CaseRuns<E>(w: World<E>, expr: Word, arms: Arms, k: nat, st: State<E>, loops: nat, calls: nat, fuel: nat)
    requires var (texts, e) := w.expand([expr], st.e);
             var text := if texts == [] then "" else texts[0];
             ArmMatches(w, arms, k, text, e) && forall j: nat :: j < k ==> !ArmMatches(w, arms, j, text, e)
    ensures Sem(w, Case(expr, arms), st, loops, calls, fuel)
            == Sem(w, ArmAt(arms, k).body, st.(e := w.expand([expr], st.e).1), loops, calls, fuel)
  {
    var (texts, e) := w.expand([expr], st.e);
    FirstArm(w, arms, k, if texts == [] then "" else texts[0], e);
  }

  lemma {:induction false} FirstArm<E>(w: World<E>, arms: Arms, k: nat, text: string, e: E)
    requires ArmMatches(w, arms, k, text, e) && forall j: nat :: j < k ==> !ArmMatches(w, arms, j, text, e)
    ensures FindArm(w, arms, text, e) == ArmAt(arms, k)
  {
    if k > 0 {
      assert !ArmMatches(w, arms, 0, text, e);
      forall j: nat | j < k - 1
        ensures !ArmMatches(w, arms.rest, j, text, e)
      {
        assert !ArmMatches(w, arms, j + 1, text, e);
      }
      FirstArm(w, arms.rest, k - 1, text, e);
    }
  }

  /** A case without such an arm runs nothing and succeeds. */
  lemma CaseRunsNothing<E>(w: World<E>, expr: Word, arms: Arms, st: State<E>, loops: nat, calls: nat, fuel: nat)
    requires var (texts, e) := w.expand([expr], st.e);
             var text := if texts == [] then "" else texts[0];
             forall j: nat :: !ArmMatches(w, arms, j, text, e)
    ensures Sem(w, Case(expr, arms), st, loops, calls, fuel)
            == Res(Normal, st.(e := w.expand([expr], st.e).1, status := 0))
  {
    var (texts, e) := w.expand([expr], st.e);
    NoArm(w, arms, if texts == [] then "" else texts[0], e);
  }

  lemma {:induction false} NoArm<E>(w: World<E>, arms: Arms, text: string, e: E)
    requires forall j: nat :: !ArmMatches(w, arms, j, text, e)
    ensures FindArm(w, arms, text, e) == NoArms
  {
    if arms.Arm? {
      assert !ArmMatches(w, arms, 0, text, e);
      forall j: nat
        ensures !ArmMatches(w, arms.rest, j, text, e)
      {
        assert !ArmMatches(w, arms, j + 1, text, e);
      }
      NoArm(w, arms.rest, text, e);
    }
  }

  // ----- Functions and subshells -----

  /** A return in a function ends it with the status given, or that of the last command, whatever is left of the body;
      the caller goes on. */
  lemma CallReturns<E>(w: World<E>, args: seq<Word>, a: Tree, k: Option<int>, rest: Tree, st: State<E>, loops: nat,
                       calls: nat, fuel: nat)
    requires fuel > 0
    requires var (texts, e) := w.expand(args, st.e);
             && texts != [] && texts[0] in st.funs && st.funs[texts[0]] == Semi(a, Semi(ReturnCmd(k), rest))
             && Sem(w, a, st.(e := w.enter(e, texts[1..])), loops, calls + 1, fuel - 1).out.Normal?
    ensures var (texts, e) := w.expand(args, st.e);
            var r := Sem(w, a, st.(e := w.enter(e, texts[1..])), loops, calls + 1, fuel - 1);
            Sem(w, Command(args), st, loops, calls, fuel)
            == Res(Normal, State(w.leave(e, r.st.e), r.st.funs, if k.Some? then k.value else r.st.status))
  {
    var (texts, e) := w.expand(args, st.e);
    var st0 := st.(e := w.enter(e, texts[1..]));
    var r := Sem(w, a, st0, loops, calls + 1, fuel - 1);
    var ret := ReturnCmd(k);
    assert Sem(w, ret, r.st, loops, calls + 1, fuel - 1)
        == Res(Return, r.st.(status := if k.Some? then k.value else r.st.status));
    RunsNothing(w, ret, rest, rest, r.st, loops, calls + 1, fuel - 1);
    RunsNext(w, a, Semi(ret, rest), Null, st0, loops, calls + 1, fuel - 1);
  }

  /** Nothing that a subshell does to functions or to loops outside it is seen. */
  lemma SubshellKeeps<E>(w: World<E>, c: Tree, st: State<E>, loops: nat, calls: nat, fuel: nat)
    ensures var r, s := Sem(w, c, st, loops, calls, fuel), Sem(w, Subshell(c), st, loops, calls, fuel);
            !r.out.OutOfFuel? ==> s.out.Normal? && s.st.funs == st.funs && s.st.status == r.st.status
  {
  }

  // ----- Loops -----

  /** When a loop ends by its test: a while loop if the test fails, an until loop if it succeeds. Its status is then
      that of the last body, or 0 in the first turn; otherwise the body is run. */
  lemma TestEnds<E>(w: World<E>, until: bool, test: Tree, body: Tree, st: State<E>, last: int, loops: nat, calls: nat,
                    fuel: nat)
    requires Sem(w, test, st, loops + 1, calls, fuel).out.Normal?
    ensures var c := Sem(w, test, st, loops + 1, calls, fuel).st;
            var b := Sem(w, body, c, loops + 1, calls, fuel);
            var t := Loop(until, test, body);
            var r := SemLoop(w, t, st, last, loops, calls, fuel);
            && Sem(w, t, st, loops, calls, fuel) == SemLoop(w, t, st, 0, loops, calls, fuel)
            && (!until && c.status != 0 ==> r == Res(Normal, c.(status := last)))
            && (until && c.status == 0 ==> r == Res(Normal, c.(status := last)))
            && ((until <==> c.status != 0) && b.out == Break(1) ==> r == Res(Normal, b.st))
            && ((until <==> c.status != 0) && b.out == Return ==> r == Res(Return, b.st))
  {
  }

  /** A for loop over one word is its body with the variable set to that word, and over no words it only succeeds. */
  lemma ForOne<E>(w: World<E>, name: string, args: seq<Word>, body: Tree, st: State<E>, loops: nat, calls: nat,
                  fuel: nat)
    ensures var (items, e) := w.expand(args, st.e);
            var r := Sem(w, For(name, args, body), st, loops, calls, fuel);
            && (items == [] ==> r == Res(Normal, st.(e := e, status := 0)))
            && (|items| == 1 ==>
                  var b := Sem(w, body, st.(e := w.assign(name, items[0], e)), loops + 1, calls, fuel);
                  b.out.Normal? ==> r == b)
  {
    var (items, e) := w.expand(args, st.e);
    var t := For(name, args, body);
    if |items| == 1 {
      var b := Sem(w, body, st.(e := w.assign(name, items[0], e)), loops + 1, calls, fuel);
      assert items[1..] == [];
      assert SemFor(w, t, [], b.st, b.st.status, loops, calls, fuel) == Res(Normal, b.st.(status := b.st.status));
    }
  }

  /** A function that was just defined is what its name calls. */
  lemma DefinedCalled<E>(w: World<E>, name: string, body: Tree, args: seq<Word>, st: State<E>, loops: nat, calls: nat,
                         fuel: nat)
    requires fuel > 0 && w.expand(args, st.e).0 != [] && w.expand(args, st.e).0[0] == name
    ensures var (texts, e) := w.expand(args, st.e);
            var st1 := State(w.enter(e, texts[1..]), st.funs[name := body], 0);
            var r, b := Sem(w, Semi(Defun(name, body), Command(args)), st, loops, calls, fuel),
                Sem(w, body, st1, loops, calls + 1, fuel - 1);
            && r.st == State(w.leave(e, b.st.e), b.st.funs, b.st.status)
            && r.out == (if b.out.Return? then Normal else b.out)
  {
    var st1 := st.(funs := st.funs[name := body], status := 0);
    assert Sem(w, Defun(name, body), st, loops, calls, fuel) == Res(Normal, st1);
    RunsNext(w, Defun(name, body), Command(args), Null, st, loops, calls, fuel);
  }

  /** A turn that ends normally goes on with the loop as it is then. */
  lemma TurnGoesOn<E>(w: World<E>, t: Tree, st: State<E>, last: int, loops: nat, calls: nat, fuel: nat)
    requires t.Loop? && fuel > 0
    requires var c := Sem(w, t.test, st, loops + 1, calls, fuel);
             && c.out.Normal? && (t.until <==> c.st.status != 0)
             && Sem(w, t.body, c.st, loops + 1, calls, fuel).out.Normal?
    ensures var b := Sem(w, t.body, Sem(w, t.test, st, loops + 1, calls, fuel).st, loops + 1, calls, fuel);
            SemLoop(w, t, st, last, loops, calls, fuel) == SemLoop(w, t, b.st, b.st.status, loops, calls, fuel - 1)
  {
  }

  /** Two bodies mean the same to the loop around them. */
  ghost predicate SameTurn<E>(w: World<E>, a: Tree, b: Tree, st: State<E>, loops: nat, calls: nat, fuel: nat) {
    var r, s := Sem(w, a, st, loops + 1, calls, fuel), Sem(w, b, st, loops + 1, calls, fuel);
    r == s || (r.st == s.st && r.out == Continue(1) && s.out == Normal)
  }

  ghost predicate SameTurns<E(!new)>(w: World<E>, a: Tree, b: Tree) {
    forall st, loops: nat, calls: nat, fuel: nat :: SameTurn(w, a, b, st, loops, calls, fuel)
  }

  /** continue at the end of a loop body changes nothing but the status, as an empty command there does. */
  lemma ContinueAtEnd<E>(w: World<E>, body: Tree, st: State<E>, loops: nat, calls: nat, fuel: nat)
    ensures SameTurn(w, Semi(body, ContinueCmd(1)), Semi(body, Null), st, loops, calls, fuel)
  {
    var r := Sem(w, body, st, loops + 1, calls, fuel);
    if r.out.Normal? {
      RunsNext(w, body, ContinueCmd(1), Null, st, loops + 1, calls, fuel);
      RunsNext(w, body, Null, Null, st, loops + 1, calls, fuel);
      assert Sem(w, Null, r.st, loops + 1, calls, fuel) == Res(Normal, r.st.(status := 0));
      assert Sem(w, ContinueCmd(1), r.st, loops + 1, calls, fuel) == Res(Continue(1), r.st.(status := 0));
    } else {
      RunsNothing(w, body, ContinueCmd(1), Null, st, loops + 1, calls, fuel);
      RunsNothing(w, body, Null, Null, st, loops + 1, calls, fuel);
    }
  }

  /** Bodies that mean the same to the loop make loops that are the same. */
  lemma {:induction false} SameLoops<E(!new)>(w: World<E>, until: bool, test: Tree, a: Tree, b: Tree, st: State<E>,
                                              last: int, loops: nat, calls: nat, fuel: nat)
    requires SameTurns(w, a, b)
    ensures SemLoop(w, Loop(until, test, a), st, last, loops, calls, fuel)
            == SemLoop(w, Loop(until, test, b), st, last, loops, calls, fuel)
    decreases fuel
  {
    var c := Sem(w, test, st, loops + 1, calls, fuel);
    if c.out.Normal? && !((c.st.status == 0) == until) {
      assert SameTurn(w, a, b, c.st, loops, calls, fuel);
      var x, y := Sem(w, a, c.st, loops + 1, calls, fuel), Sem(w, b, c.st, loops + 1, calls, fuel);
      assert EndOfTurn(x.out) == EndOfTurn(y.out) && x.st == y.st;
      if fuel > 0 { SameLoops(w, until, test, a, b, x.st, x.st.status, loops, calls, fuel - 1); }
    } else if fuel > 0 {
      SameLoops(w, until, test, a, b, c.st, last, loops, calls, fuel - 1);
    }
  }

  lemma {:induction false} SameFors<E(!new)>(w: World<E>, name: string, args: seq<Word>, a: Tree, b: Tree,
                                             items: seq<string>, st: State<E>, last: int, loops: nat, calls: nat,
                                                 fuel: nat)
    requires SameTurns(w, a, b)
    ensures SemFor(w, For(name, args, a), items, st, last, loops, calls, fuel)
            == SemFor(w, For(name, args, b), items, st, last, loops, calls, fuel)
    decreases |items|
  {
    if items != [] {
      var st1 := st.(e := w.assign(name, items[0], st.e));
      assert SameTurn(w, a, b, st1, loops, calls, fuel);
      var x, y := Sem(w, a, st1, loops + 1, calls, fuel), Sem(w, b, st1, loops + 1, calls, fuel);
      assert EndOfTurn(x.out) == EndOfTurn(y.out) && x.st == y.st;
      SameFors(w, name, args, a, b, items[1..], x.st, x.st.status, loops, calls, fuel);
    }
  }

  /** For every loop: continue at the end of its body is as good as nothing there. */
  lemma ContinueEndsTurn<E(!new)>(w: World<E>, until: bool, test: Tree, name: string, args: seq<Word>, body: Tree,
                                  st: State<E>, loops: nat, calls: nat, fuel: nat)
    ensures Sem(w, Loop(until, test, Semi(body, ContinueCmd(1))), st, loops, calls, fuel)
            == Sem(w, Loop(until, test, Semi(body, Null)), st, loops, calls, fuel)
    ensures Sem(w, For(name, args, Semi(body, ContinueCmd(1))), st, loops, calls, fuel)
            == Sem(w, For(name, args, Semi(body, Null)), st, loops, calls, fuel)
  {
    var a, b := Semi(body, ContinueCmd(1)), Semi(body, Null);
    forall st, loops: nat, calls: nat, fuel: nat
      ensures SameTurn(w, a, b, st, loops, calls, fuel)
    {
      ContinueAtEnd(w, body, st, loops, calls, fuel);
    }
    SameLoops(w, until, test, a, b, st, 0, loops, calls, fuel);
    var (items, e) := w.expand(args, st.e);
    SameFors(w, name, args, a, b, items, st.(e := e), 0, loops, calls, fuel);
  }

  /** What follows a break, continue or return that has something to leave is not run. */
  lemma SkipsRest<E>(w: World<E>, n: int, status: Option<int>, rest: Tree, st: State<E>, loops: nat, calls: nat,
                     fuel: nat)
    requires n > 0 && loops > 0
    ensures Sem(w, Semi(ContinueCmd(n), rest), st, loops, calls, fuel) == Sem(w, ContinueCmd(n), st, loops, calls, fuel)
    ensures Sem(w, Semi(BreakCmd(n), rest), st, loops, calls, fuel) == Sem(w, BreakCmd(n), st, loops, calls, fuel)
    ensures Sem(w, Semi(ReturnCmd(status), rest), st, loops, calls, fuel)
            == Sem(w, ReturnCmd(status), st, loops, calls, fuel)
  {
  }

  /** Outside all loops, and for 0 or less, break and continue only succeed. */
  lemma SkipsNothing<E>(w: World<E>, n: int, rest: Tree, st: State<E>, loops: nat, calls: nat, fuel: nat)
    requires n <= 0 || loops == 0
    ensures Sem(w, Semi(ContinueCmd(n), rest), st, loops, calls, fuel)
            == Sem(w, Semi(Null, rest), st, loops, calls, fuel)
    ensures Sem(w, Semi(BreakCmd(n), rest), st, loops, calls, fuel) == Sem(w, Semi(Null, rest), st, loops, calls, fuel)
  {
    assert Sem(w, Null, st, loops, calls, fuel) == Sem(w, BreakCmd(n), st, loops, calls, fuel);
    assert Sem(w, Null, st, loops, calls, fuel) == Sem(w, ContinueCmd(n), st, loops, calls, fuel);
  }

  // ----- Nested loops -----

  /** How many loops a break or continue for n of them concerns. */
  function Concerned(n: nat, loops: nat): (r: nat) {
    if n < loops then n else loops
  }

  /** n loops that would never end, around some command. */
  function Nested(n: nat, inner: Tree): (r: Tree) {
    if n == 0 then inner else Loop(false, Null, Nested(n - 1, inner))
  }

  /** break n, as the body of m endless loops, ends all of them if it concerns as many, and goes on to the loops
      around them for what is left. */
  lemma {:induction false} BreakLeaves<E>(w: World<E>, n: nat, m: nat, st: State<E>, loops: nat, calls: nat, fuel: nat)
    requires 0 < n && 0 < loops + m && m <= Concerned(n, loops + m)
    ensures var k := Concerned(n, loops + m);
            Sem(w, Nested(m, BreakCmd(n)), st, loops, calls, fuel)
            == Res(if k == m then Normal else Break(k - m), st.(status := 0))
    decreases m
  {
    if m > 0 {
      var st0 := st.(status := 0);
      assert Sem(w, Null, st, loops + 1, calls, fuel) == Res(Normal, st0);
      BreakLeaves(w, n, m - 1, st0, loops + 1, calls, fuel);
    }
  }

  /** continue n, as the body of fewer endless loops, ends these and goes on to the loops around them for what is
      left. */
  lemma {:induction false} ContinueLeaves<E>(w: World<E>, n: nat, m: nat, st: State<E>, loops: nat, calls: nat,
                                             fuel: nat)
    requires 0 < n && 0 < loops + m && m < Concerned(n, loops + m)
    ensures Sem(w, Nested(m, ContinueCmd(n)), st, loops, calls, fuel)
            == Res(Continue(Concerned(n, loops + m) - m), st.(status := 0))
    decreases m
  {
    if m > 0 {
      var st0 := st.(status := 0);
      assert Sem(w, Null, st, loops + 1, calls, fuel) == Res(Normal, st0);
      ContinueLeaves(w, n, m - 1, st0, loops + 1, calls, fuel);
    }
  }

  /** continue n, as the body of n endless loops or more, goes on with them: they never end. */
  lemma {:induction false} ContinueStays<E>(w: World<E>, n: nat, m: nat, st: State<E>, loops: nat, calls: nat,
                                            fuel: nat)
    requires 0 < n <= m
    ensures Sem(w, Nested(m, ContinueCmd(n)), st, loops, calls, fuel).out.OutOfFuel?
    decreases m, fuel
  {
    var st0, t := st.(status := 0), Nested(m, ContinueCmd(n));
    assert Sem(w, Null, st, loops + 1, calls, fuel) == Res(Normal, st0);
    if n < m {
      ContinueStays(w, n, m - 1, st0, loops + 1, calls, fuel);
    } else {
      ContinueLeaves(w, n, m - 1, st0, loops + 1, calls, fuel);
      assert Sem(w, t.body, st0, loops + 1, calls, fuel) == Res(Continue(1), st0);
      if fuel > 0 {
        ContinueStays(w, n, m, st0, loops, calls, fuel - 1);
        SameStatus(w, t, st0, loops, calls, fuel - 1);
      }
    }
  }

  lemma SameStatus<E>(w: World<E>, t: Tree, st: State<E>, loops: nat, calls: nat, fuel: nat)
    requires t.Loop?
    ensures Sem(w, t, st, loops, calls, fuel) == SemLoop(w, t, st, 0, loops, calls, fuel)
  {
  }

  /** The variable set to one word after the other. */
  function AssignAll<E>(w: World<E>, name: string, items: seq<string>, e: E): (r: E) {
    if items == [] then e else AssignAll(w, name, items[1..], w.assign(name, items[0], e))
  }

  /** A for loop whose body continues it, from inside m more loops, comes to every word; one whose body breaks out of
      it sets the variable once. */
  lemma ForLoops<E>(w: World<E>, name: string, args: seq<Word>, m: nat, st: State<E>, loops: nat, calls: nat, fuel: nat)
    ensures var (items, e) := w.expand(args, st.e);
            Sem(w, For(name, args, Nested(m, ContinueCmd(m + 1))), st, loops, calls, fuel)
            == Res(Normal, st.(e := AssignAll(w, name, items, e), status := 0))
    ensures var (items, e) := w.expand(args, st.e);
            Sem(w, For(name, args, Nested(m, BreakCmd(m + 1))), st, loops, calls, fuel)
            == Res(Normal, st.(e := if items == [] then e else w.assign(name, items[0], e), status := 0))
  {
    var (items, e) := w.expand(args, st.e);
    ForContinues(w, name, args, m, items, st.(e := e), 0, loops, calls, fuel);
    if items != [] {
      BreakLeaves(w, m + 1, m, st.(e := w.assign(name, items[0], e)), loops + 1, calls, fuel);
    }
  }

  lemma {:induction false} ForContinues<E>(w: World<E>, name: string, args: seq<Word>, m: nat, items: seq<string>,
                                           st: State<E>, last: int, loops: nat, calls: nat, fuel: nat)
    ensures SemFor(w, For(name, args, Nested(m, ContinueCmd(m + 1))), items, st, last, loops, calls, fuel)
            == Res(Normal, State(AssignAll(w, name, items, st.e), st.funs, if items == [] then last else 0))
    decreases |items|
  {
    if items != [] {
      var st1 := st.(e := w.assign(name, items[0], st.e));
      ContinueLeaves(w, m + 1, m, st1, loops + 1, calls, fuel);
      ForContinues(w, name, args, m, items[1..], st1.(status := 0), 0, loops, calls, fuel);
    }
  }
}
