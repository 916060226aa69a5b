/** The shell's evaluator: break, continue and return as flags that every construct looks at. */
module Eval {
  import opened Bytes
  import opened ShellTree

  datatype EvalSkip = NoSkip | SkipBreak | SkipCont | SkipFunc | SkipFile

  class Shell<E> {
    const w: World<E>
    var evalskip: EvalSkip
    var skipcount: int
    var loopnest: nat
    var funcnest: nat
    var exitstatus: int
    var e: E
    var funs: map<string, Tree>

    constructor (w: World<E>, loopnest: nat, funcnest: nat, exitstatus: int, e: E, funs: map<string, Tree>)
      ensures this.w == w && evalskip == NoSkip && this.loopnest == loopnest && this.funcnest == funcnest
      ensures St() == State(e, funs, exitstatus)
    {
      this.w := w;
      evalskip, skipcount := NoSkip, 0;
      this.loopnest, this.funcnest, this.exitstatus, this.e, this.funs := loopnest, funcnest, exitstatus, e, funs;
    }

    function St(): (r: State<E>)
      reads this
    {
      State(e, funs, exitstatus)
    }

    /** What the flags say about how a command ended. */
    ghost predicate Flags(out: Out)
      reads this
    {
      match out
      case Normal => evalskip == NoSkip
      case Break(n) => evalskip == SkipBreak && skipcount == n
      case Continue(n) => evalskip == SkipCont && skipcount == n
      case Return => evalskip == if funcnest > 0 then SkipFunc else SkipFile
      case OutOfFuel => true
    }

    /** The shell has ended as r says, at these nesting levels; ran is false if the fuel was spent. */
    ghost predicate Ended(ran: bool, r: Res<E>, loops: nat, calls: nat)
      reads this
    {
      && (ran <==> !r.out.OutOfFuel?)
      && (ran ==> loopnest == loops && funcnest == calls && St() == r.st && Flags(r.out) && WithinLoops(r.out, loops))
    }

    /** Evaluates a tree. */
    method EvalTree(t: Tree, fuel: nat) returns (ran: bool)
      requires evalskip == NoSkip
      modifies this
      ensures Ended(ran, old(Sem(w, t, St(), loopnest, funcnest, fuel)), old(loopnest), old(funcnest))
      decreases fuel, t, 1, 0
    {
      hide FindArm, Skip, SemLoop;
      ran := true;
      match t
      case Null => exitstatus := 0;
      case Semi(a, b) =>
        ran := EvalTree(a, fuel);
        if !ran || evalskip != NoSkip { return; }
        ran := EvalTree(b, fuel);
      case And(a, b) =>
        ran := EvalTree(a, fuel);
        if !ran || evalskip != NoSkip || exitstatus != 0 { return; }
        ran := EvalTree(b, fuel);
      case Or(a, b) =>
        ran := EvalTree(a, fuel);
        if !ran || evalskip != NoSkip || exitstatus == 0 { return; }
        ran := EvalTree(b, fuel);
      case Not(c) =>
        ran := EvalTree(c, fuel);
        exitstatus := if exitstatus == 0 then 1 else 0;
      case If(test, yes, no) =>
        ran := EvalTree(test, fuel);
        if !ran || evalskip != NoSkip { return; }
        if exitstatus == 0 { ran := EvalTree(yes, fuel); } else { ran := EvalTree(no, fuel); }
      case Loop(_, _, _) => ran := EvalLoop(t, fuel);
      case For(_, _, _) => ran := EvalFor(t, fuel);
      case Case(expr, arms) =>
        var r := w.expand([expr], e);
        e := r.1;
        var arm := FindArm(w, arms, if r.0 == [] then "" else r.0[0], e);
        if arm.Arm? { ran := EvalTree(arm.body, fuel); } else { exitstatus := 0; }
      case Defun(name, body) =>
        funs := funs[name := body];
        exitstatus := 0;
      case Subshell(c) => ran := EvalSubshell(c, fuel);
      case Command(args) => ran := EvalCommand(args, fuel);
      case BreakCmd(n) => Breakcmd(n, false);
      case ContinueCmd(n) => Breakcmd(n, true);
      case ReturnCmd(status) => Returncmd(status);
    }

    /** The break and continue utilities. */
    method Breakcmd(n0: int, continuing: bool)
      requires evalskip == NoSkip
      modifies this
      ensures Ended(true, Res(Skip(n0, old(loopnest), continuing), old(St()).(status := 0)), old(loopnest),
                    old(funcnest))
    {
      var n := n0;
      if n > loopnest { n := loopnest; }
      if n > 0 {
        evalskip := if continuing then SkipCont else SkipBreak;
        skipcount := n;
      }
      exitstatus := 0;
    }

    /** The return utility; outside functions it skips the rest of the file. */
    method Returncmd(status: Option<int>)
      requires evalskip == NoSkip
      modifies this
      ensures Ended(true, Res(Return, old(St()).(status := if status.Some? then status.value else old(exitstatus))),
                    old(loopnest), old(funcnest))
    {
      if status.Some? { exitstatus := status.value; }
      evalskip := if funcnest > 0 then SkipFunc else SkipFile;
      skipcount := 1;
    }

    /** What a loop does when commands are being skipped: whether it goes on with its next turn. */
    method Skipping(ghost out: Out) returns (again: bool)
      requires Flags(out) && !out.Normal? && !out.OutOfFuel?
      modifies this`evalskip, this`skipcount
      ensures again <==> EndOfTurn(out).Again?
      ensures Flags(if again then Normal else EndOfTurn(out).out)
    {
      if evalskip == SkipCont {
        skipcount := skipcount - 1;
        if skipcount <= 0 {
          evalskip := NoSkip;
          return true;
        }
      }
      if evalskip == SkipBreak {
        skipcount := skipcount - 1;
        if skipcount <= 0 { evalskip := NoSkip; }
      }
      return false;
    }

    /** A while or until loop. */
    method EvalLoop(t: Tree, fuel0: nat) returns (ran: bool)
      requires evalskip == NoSkip && t.Loop?
      modifies this
      ensures Ended(ran, old(SemLoop(w, t, St(), 0, loopnest, funcnest, fuel0)), old(loopnest), old(funcnest))
      decreases fuel0, t, 0, 0
    {
      hide Sem, SemFor;
      ghost var loops, calls, goal := loopnest, funcnest, SemLoop(w, t, St(), 0, loopnest, funcnest, fuel0);
      var fuel: nat := fuel0;
      loopnest := loopnest + 1;
      var status := 0;
      while true
        invariant fuel <= fuel0 && evalskip == NoSkip && loopnest == loops + 1 && funcnest == calls
        invariant SemLoop(w, t, St(), status, loops, calls, fuel) == goal
        decreases fuel
      {
        ghost var r := Sem(w, t.test, St(), loops + 1, calls, fuel);
        ran := EvalTree(t.test, fuel);
        if !ran { return false; }
        if evalskip == NoSkip {
          if (exitstatus == 0) == t.until { break; }
          r := Sem(w, t.body, St(), loops + 1, calls, fuel);
          ran := EvalTree(t.body, fuel);
          if !ran { return false; }
          status := exitstatus;
        }
        if evalskip != NoSkip {
          var again := Skipping(r.out);
          if !again { break; }
        }
        if fuel == 0 { return false; }
        fuel := fuel - 1;
      }
      loopnest := loopnest - 1;
      exitstatus := status;
    }

    /** A for loop. */
    method EvalFor(t: Tree, fuel: nat) returns (ran: bool)
      requires evalskip == NoSkip && t.For?
      modifies this
      ensures Ended(ran, old(Sem(w, t, St(), loopnest, funcnest, fuel)), old(loopnest), old(funcnest))
      decreases fuel, t, 0, 0
    {
      ghost var loops, calls, goal := loopnest, funcnest, Sem(w, t, St(), loopnest, funcnest, fuel);
      var x := w.expand(t.args, e);
      e := x.1;
      var items, status := x.0, 0;
      loopnest := loopnest + 1;
      ran := true;
      while items != []
        invariant evalskip == NoSkip && loopnest == loops + 1 && funcnest == calls && ran
        invariant SemFor(w, t, items, St(), status, loops, calls, fuel) == goal
        decreases |items|
      {
        e := w.assign(t.name, items[0], e);
        ghost var r := Sem(w, t.body, St(), loops + 1, calls, fuel);
        ran := EvalTree(t.body, fuel);
        if !ran { return; }
        status := exitstatus;
        if evalskip != NoSkip {
          var again := Skipping(r.out);
          if !again { break; }
        }
        items := items[1..];
      }
      loopnest := loopnest - 1;
      exitstatus := status;
    }

    /** A subshell: a copy of the shell, with its nesting levels, of which only the status comes back. */
    method EvalSubshell(c: Tree, fuel: nat) returns (ran: bool)
      requires evalskip == NoSkip
      modifies this
      ensures Ended(ran, old(Sem(w, Subshell(c), St(), loopnest, funcnest, fuel)), old(loopnest), old(funcnest))
      decreases fuel, c, 2, 0
    {
      var child := new Shell(w, loopnest, funcnest, exitstatus, e, funs);
      ran := child.EvalTree(c, fuel);
      e := w.join(e, child.e);
      exitstatus := child.exitstatus;
    }

    /** A simple command: a function call, or something that does not touch the flags. */
    method EvalCommand(args: seq<Word>, fuel: nat) returns (ran: bool)
      requires evalskip == NoSkip
      modifies this
      ensures Ended(ran, old(Sem(w, Command(args), St(), loopnest, funcnest, fuel)), old(loopnest), old(funcnest))
      decreases fuel, Command(args), 0, 0
    {
      hide WithinLoops;
      var x := w.expand(args, e);
      var texts := x.0;
      e := x.1;
      if texts == [] || texts[0] !in funs {
        var y := w.exec(texts, e, exitstatus);
        e, exitstatus := y.0, y.1;
        return true;
      }
      if fuel == 0 { return false; }
      var saved := e;
      e := w.enter(e, texts[1..]);
      funcnest := funcnest + 1;
      ran := EvalTree(funs[texts[0]], fuel - 1);
      if !ran { return; }
      funcnest := funcnest - 1;
      e := w.leave(saved, e);
      if evalskip == SkipFunc {
        evalskip := NoSkip;
        skipcount := 0;
      }
    }
  }
}
