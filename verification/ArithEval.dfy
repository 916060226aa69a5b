/** Evaluating an arithmetic expression while it is parsed, as yyparse does. */
module ArithEval {
  import opened Bytes
  import opened ArithTables
  import opened ArithParse

  // ----- Values: 32-bit integers -----

  const TWO_31 := 0x8000_0000
  const TWO_32 := 0x1_0000_0000

  function Wrap(x: int): (r: int) {
    (x + TWO_31) % TWO_32 - TWO_31
  }

  function Truth(b: bool): (r: nat) {
    if b then 1 else 0
  }

  /** Division in C drops the fraction. */
  function Quotient(a: int, b: int): (r: int)
    requires b != 0
  {
    var q := (if a < 0 then -a else a) / (if b < 0 then -b else b);
    if (a < 0) == (b < 0) then q else -q
  }

  function PowerOfTwo(n: nat): (r: nat)
    ensures r > 0
  {
    if n == 0 then 1 else 2 * PowerOfTwo(n - 1)
  }

  function BitOp(op: int, p: bool, q: bool): (r: bool) {
    match op case 8 => p || q case 9 => p != q case _ => p && q
  }

  /** |, ^ and & on the lowest n bits. */
  function Bitwise(op: int, a: int, b: int, n: nat): (r: nat)
    decreases n
  {
    if n == 0 then 0 else 2 * Bitwise(op, a / 2, b / 2, n - 1) + Truth(BitOp(op, a % 2 == 1, b % 2 == 1))
  }

  /** What an operator computes, or nothing where it divides by zero. A || and a && give an operand, not 0 or 1. */
  function Apply(op: int, a: int, b: int): (r: Option<int>) {
    match op
    case 6 => Some(if a != 0 then a else b)
    case 7 => Some(if a != 0 then b else 0)
    case 8 => Some(Wrap(Bitwise(op, a, b, 32)))
    case 9 => Some(Wrap(Bitwise(op, a, b, 32)))
    case 10 => Some(Wrap(Bitwise(op, a, b, 32)))
    case 11 => Some(Truth(a != b))
    case 12 => Some(Truth(a == b))
    case 13 => Some(Truth(a <= b))
    case 14 => Some(Truth(a >= b))
    case 15 => Some(Truth(a > b))
    case 16 => Some(Truth(a < b))
    case 17 => Some(a / PowerOfTwo(b % 32))
    case 18 => Some(Wrap(a * PowerOfTwo(b % 32)))
    case 19 => Some(Wrap(a - b))
    case 20 => Some(Wrap(a + b))
    case 21 => if b == 0 then None else Some(Wrap(a - b * Quotient(a, b)))
    case 22 => if b == 0 then None else Some(Wrap(Quotient(a, b)))
    case _ => Some(Wrap(a * b))
  }

  function ApplyUnary(op: int, a: int): (r: int) {
    match op case 25 => Truth(a == 0) case 24 => -a - 1 case 19 => Wrap(-a) case _ => a
  }

  /** The value of an expression. Both sides of an operator are computed, whatever it is. */
  function Value(t: Tree): (r: Option<int>) {
    match t
    case Num(v) => Some(v)
    case Paren(e) => Value(e)
    case Un(c, e) => if Value(e).Some? then Some(ApplyUnary(c, Value(e).value)) else None
    case Bin(c, l, r) => if Value(l).Some? && Value(r).Some? then Apply(c, Value(l).value, Value(r).value) else None
  }

  // ----- The value stack -----

  /** The stacks of states and values hold what the stack of trees stands for. */
  ghost predicate Mirrors(ss: seq<int>, vs: seq<int>, s: Stack) {
    && |ss| == |vs| > 0
    && match s
       case Bottom => ss == [0]
       case Push(b, q, sem) =>
         && |ss| > 1 && ss[|ss| - 1] == q && Mirrors(ss[..|ss| - 1], vs[..|vs| - 1], b)
         && (sem.Node? ==> Value(sem.tree) == Some(vs[|vs| - 1]))
         && (sem.Tok? && sem.tok.Number? ==> sem.tok.value == vs[|vs| - 1])
  }

  lemma MirrorTop(ss: seq<int>, vs: seq<int>, s: Stack)
    requires Mirrors(ss, vs, s)
    ensures ss[|ss| - 1] == Top(s)
  {
  }

  lemma MirrorPush(ss: seq<int>, vs: seq<int>, s: Stack, q: int, v: int, sem: Sem)
    requires Mirrors(ss, vs, s)
    requires (sem.Node? ==> Value(sem.tree) == Some(v)) && (sem.Tok? && sem.tok.Number? ==> sem.tok.value == v)
    ensures Mirrors(ss + [q], vs + [v], Push(s, q, sem))
  {
    assert (ss + [q])[..|ss|] == ss && (vs + [v])[..|vs|] == vs;
  }

  /** The value that the action of a rule computes, from the values on top of the stack. */
  function Acted(rule: int, vs: seq<int>): (r: Option<int>) {
    var n := |vs|;
    if rule == 3 && n > 2 then Some(vs[n - 2])
    else if 4 <= rule <= 21 && n > 3 then Apply(RuleBinary(rule), vs[n - 3], vs[n - 1])
    else if 22 <= rule <= 25 && n > 1 then Some(ApplyUnary(RuleUnary(rule), vs[n - 1]))
    else if n > 0 then Some(vs[n - 1])
    else None
  }

  /** One below the top. */
  lemma MirrorBelow(ss: seq<int>, vs: seq<int>, s: Stack)
    requires Mirrors(ss, vs, s) && s.Push?
    ensures |ss| == |vs| > 1 && Mirrors(ss[..|ss| - 1], vs[..|vs| - 1], s.below)
    ensures s.sem.Node? ==> Value(s.sem.tree) == Some(vs[|vs| - 1])
    ensures s.sem.Tok? && s.sem.tok.Number? ==> s.sem.tok.value == vs[|vs| - 1]
  {
  }

  /** The stacks hold k + 1 entries that stand for the top of s, and the values are v. */
  ghost predicate Pops(ss: seq<int>, vs: seq<int>, k: nat, b: Stack) {
    k < |ss| == |vs| && Mirrors(ss[..|ss| - k], vs[..|vs| - k], b)
  }

  lemma PopAgain(ss: seq<int>, vs: seq<int>, k: nat, b: Stack)
    requires Pops(ss, vs, k, b) && b.Push?
    ensures Pops(ss, vs, k + 1, b.below) && k + 1 < |vs|
    ensures b.sem.Node? ==> Value(b.sem.tree) == Some(vs[|vs| - k - 1])
    ensures b.sem.Tok? && b.sem.tok.Number? ==> b.sem.tok.value == vs[|vs| - k - 1]
  {
    MirrorBelow(ss[..|ss| - k], vs[..|vs| - k], b);
    assert ss[..|ss| - k][..|ss| - k - 1] == ss[..|ss| - k - 1] && vs[..|vs| - k][..|vs| - k - 1] == vs[..|vs| - k - 1];
  }

  /** A reduction takes as many states as its rule is long, and its action computes the value of its tree. */
  lemma ReductionActs(ss: seq<int>, vs: seq<int>, s: Stack, rule: int)
    requires Mirrors(ss, vs, s) && Reduced(s, rule).Some?
    ensures Pops(ss, vs, YyR2(rule), Reduced(s, rule).value.below)
    ensures Value(Reduced(s, rule).value.tree) == Acted(rule, vs)
  {
    StartPops(ss, vs, s);
    PopAgain(ss, vs, 0, s);
    if rule != 26 { PopAgain(ss, vs, 1, s.below); }
    if rule <= 21 { PopAgain(ss, vs, 2, s.below.below); }
    StartPops(ss, vs, s);
  }

  lemma StartPops(ss: seq<int>, vs: seq<int>, s: Stack)
    requires Mirrors(ss, vs, s)
    ensures Pops(ss, vs, 0, s) && |ss| == |vs|
  {
    assert ss[..|ss|] == ss && vs[..|vs|] == vs;
  }

  // ----- A division by zero is not forgotten -----

  /** An expression on the stack has no value. */
  predicate Spoilt(s: Stack) {
    s.Push? && ((s.sem.Node? && Value(s.sem.tree).None?) || Spoilt(s.below))
  }

  lemma {:induction false} SpoiltStays(toks: seq<Token>, s: Stack, pos: nat)
    requires Running(toks, s, pos) && Spoilt(s)
    ensures Outcome(toks, s, pos).Accept? ==> Value(Outcome(toks, s, pos).tree) == None
    decreases 4 * (|toks| - pos) + Weight(s)
  {
    StillLinked(toks, s, pos);
    match Decide(Top(s), Look(toks, pos))
    case Error =>
    case Shift(q) =>
      ShiftRuns(toks, s, pos, q);
      SpoiltStays(toks, Push(s, q, Tok(toks[pos])), pos + 1);
    case Reduce(rule) =>
      if rule == 2 {
        RuleTwo(toks, s, pos);
      } else {
        ReduceRuns(toks, s, pos, rule);
        var r := Reduced(s, rule).value;
        SpoiltTree(s, rule);
        SpoiltStays(toks, Push(r.below, Next(Top(r.below)), Node(r.tree)), pos);
      }
  }

  lemma SpoiltTree(s: Stack, rule: int)
    requires Spoilt(s) && Reduced(s, rule).Some?
    ensures Value(Reduced(s, rule).value.tree).None? || Spoilt(Reduced(s, rule).value.below)
  {
    if s.below.Push? {
      assert Spoilt(s.below) <==> (s.below.sem.Node? && Value(s.below.sem.tree).None?) || Spoilt(s.below.below);
      if s.below.below.Push? {
        var b := s.below.below;
        assert Spoilt(b) <==> (b.sem.Node? && Value(b.sem.tree).None?) || Spoilt(b.below);
      }
    }
  }

  /** Whether a division by zero is reduced before the parse ends. */
  predicate Spoils(toks: seq<Token>, s: Stack, pos: nat)
    requires pos <= |toks|
    decreases 4 * (|toks| - pos) + Weight(s)
  {
    match Decide(Top(s), Look(toks, pos))
    case Error => false
    case Shift(q) => pos < |toks| && Spoils(toks, Push(s, q, Tok(toks[pos])), pos + 1)
    case Reduce(rule) =>
      rule != 2 &&
      match Reduced(s, rule)
      case None => false
      case Some(r) => Value(r.tree).None? || Spoils(toks, Push(r.below, Next(Top(r.below)), Node(r.tree)), pos)
  }

  lemma SpoilsShifted(toks: seq<Token>, s: Stack, pos: nat, q: int)
    requires pos < |toks| && Decide(Top(s), Look(toks, pos)) == Shift(q)
    ensures Spoils(toks, s, pos) <==> Spoils(toks, Push(s, q, Tok(toks[pos])), pos + 1)
  {
    hide Decide, Look;
  }

  lemma SpoilsReduced(toks: seq<Token>, s: Stack, rule: int, pos: nat, r: Reduction)
    requires pos <= |toks| && Decide(Top(s), Look(toks, pos)) == Reduce(rule) && rule != 2
             && Reduced(s, rule) == Some(r)
    ensures Spoils(toks, s, pos)
            <==> Value(r.tree).None? || Spoils(toks, Push(r.below, Next(Top(r.below)), Node(r.tree)), pos)
  {
    hide Decide, Look, Next, Value;
  }

  lemma SpoilsEnded(toks: seq<Token>, s: Stack, pos: nat)
    requires pos <= |toks| && Decide(Top(s), Look(toks, pos)) in {Error, Reduce(2)}
    ensures !Spoils(toks, s, pos)
  {
    hide Decide, Look;
  }

  // ----- The parser -----

  const YYEMPTY := -2

  datatype Parsed = Result(value: int) | SyntaxError | DivisionByZero

  /** The token read but not yet shifted, if any. */
  ghost predicate Ahead(toks: seq<Token>, at: nat, pos: nat, yychar: int, yylval: int) {
    && at <= pos <= |toks|
    && if yychar == YYEMPTY then pos == at
       else
         && yychar == Look(toks, at) && pos == (if at < |toks| then at + 1 else at)
         && (at < |toks| && toks[at].Number? ==> yylval == toks[at].value)
  }

  /** Read the next token unless there is one. */
  method ReadAhead(toks: seq<Token>, ghost at: nat, pos: nat, yychar: int, yylval: int)
    returns (pos': nat, yychar': int, yylval': int)
    requires TokensOk(toks) && Ahead(toks, at, pos, yychar, yylval)
    ensures Ahead(toks, at, pos', yychar', yylval') && yychar' == Look(toks, at)
  {
    pos', yychar', yylval' := pos, yychar, yylval;
    if yychar == YYEMPTY {
      yychar' := Look(toks, pos);
      if pos < |toks| {
        if toks[pos].Number? { yylval' := toks[pos].value; }
        pos' := pos + 1;
      }
    }
  }

  /** The state of the loop: the stacks stand for s, and the tokens up to at are shifted. */
  ghost predicate Going(toks: seq<Token>, ss: seq<int>, vs: seq<int>, s: Stack, at: nat) {
    Running(toks, s, at) && Mirrors(ss, vs, s) && Outcome(toks, s, at) == Outcome(toks, Bottom, 0)
  }

  lemma Started(toks: seq<Token>)
    requires TokensOk(toks)
    ensures Going(toks, [0], [0], Bottom, 0)
  {
  }

  lemma ShiftGoes(toks: seq<Token>, ss: seq<int>, vs: seq<int>, s: Stack, at: nat, q: int, v: int)
    requires Going(toks, ss, vs, s, at) && Decide(Top(s), Look(toks, at)) == Shift(q)
    requires at < |toks| && toks[at].Number? ==> v == toks[at].value
    ensures at < |toks| && Going(toks, ss + [q], vs + [v], Push(s, q, Tok(toks[at])), at + 1)
  {
    ShiftRuns(toks, s, at, q);
    MirrorPush(ss, vs, s, q, v, Tok(toks[at]));
  }

  /** No state is the final one: rule 2 returns before. */
  lemma NeverFinal(toks: seq<Token>, s: Stack, at: nat, q: int)
    requires Running(toks, s, at) && Decide(Top(s), Look(toks, at)) == Shift(q)
    ensures q != YYFINAL
  {
    LinkedState(s);
  }

  lemma ReduceGoes(toks: seq<Token>, ss: seq<int>, vs: seq<int>, s: Stack, at: nat, rule: int)
    requires Going(toks, ss, vs, s, at) && Decide(Top(s), Look(toks, at)) == Reduce(rule) && rule != 2
    ensures Reduced(s, rule).Some?
    ensures var r := Reduced(s, rule).value; var len := YyR2(rule);
            && Pops(ss, vs, len, r.below)
            && match Acted(rule, vs)
               case None => Outcome(toks, Bottom, 0).Accept? ==> Value(Outcome(toks, Bottom, 0).tree) == None
               case Some(v) =>
                 var q := Next(ss[|ss| - len - 1]);
                 Going(toks, ss[..|ss| - len] + [q], vs[..|vs| - len] + [v], Push(r.below, q, Node(r.tree)), at)
  {
    ReduceRuns(toks, s, at, rule);
    var r := Reduced(s, rule).value;
    var len, q := YyR2(rule), Next(Top(r.below));
    ReductionActs(ss, vs, s, rule);
    MirrorTop(ss[..|ss| - len], vs[..|vs| - len], r.below);
    StillLinked(toks, s, at);
    var after := Push(r.below, q, Node(r.tree));
    ReduceStep(toks, s, rule, at, r);
    match Acted(rule, vs)
    case None => SpoiltStays(toks, after, at);
    case Some(v) => MirrorPush(ss[..|ss| - len], vs[..|vs| - len], r.below, q, v, Node(r.tree));
  }

  lemma Returns(toks: seq<Token>, ss: seq<int>, vs: seq<int>, s: Stack, at: nat)
    requires Going(toks, ss, vs, s, at) && Decide(Top(s), Look(toks, at)) == Reduce(2)
    ensures |vs| > 0 && Outcome(toks, Bottom, 0).Accept? && Value(Outcome(toks, Bottom, 0).tree) == Some(vs[|vs| - 1])
  {
    RuleTwo(toks, s, at);
  }

  /** What comes of tokens: the value of the one tree of the sentence they begin with. When they begin with none, it
      is a syntax error, unless a division by zero comes first. */
  predicate ParsedAs(toks: seq<Token>, r: Parsed)
    requires TokensOk(toks)
  {
    match Outcome(toks, Bottom, 0)
    case Accept(t, n) => r == if Value(t).Some? then Result(Value(t).value) else DivisionByZero
    case Reject => r == if Spoils(toks, Bottom, 0) then DivisionByZero else SyntaxError
  }

  /** yyparse. Its result is the value of the one tree of the sentence that the tokens begin with. When they begin
      with none, it is a syntax error, unless a division by zero comes first. */
  method YyParse(toks: seq<Token>) returns (r: Parsed)
    requires TokensOk(toks)
    ensures ParsedAs(toks, r)
  {
    hide Spoils, Act, Decide, Goto, Next, Running, Mirrors, Outcome, Value, Acted;
    var yyss, yyvs := [0], [0];
    var yychar, yylval, pos: nat := YYEMPTY, 0, 0;
    ghost var s, at: nat := Bottom, 0;
    Started(toks);
    while true
      invariant Going(toks, yyss, yyvs, s, at)
      invariant Ahead(toks, at, pos, yychar, yylval) && Spoils(toks, s, at) == Spoils(toks, Bottom, 0)
      decreases 4 * (|toks| - at) + Weight(s)
    {
      Parallel(toks, yyss, yyvs, s, at);
      var yystate := yyss[|yyss| - 1];
      if YyPact(yystate) != YYPACT_NINF { pos, yychar, yylval := ReadAhead(toks, at, pos, yychar, yylval); }
      ghost var look := Look(toks, at);
      DefaultNeedsNoToken(yystate, yychar, look);
      TablesDecide(yystate, look);
      match Act(yystate, yychar)
      case Error =>
        RejectsThere(toks, yyss, yyvs, s, at);
        SpoilsEnded(toks, s, at);
        return SyntaxError;
      case Shift(q) =>
        NeverFinal(toks, s, at, q);
        if q == YYFINAL { return Result(0); }
        ShiftGoes(toks, yyss, yyvs, s, at, q, yylval);
        SpoilsShifted(toks, s, at, q);
        yychar := YYEMPTY;
        yyss, yyvs := yyss + [q], yyvs + [yylval];
        s, at := Push(s, q, Tok(toks[at])), at + 1;
      case Reduce(rule) =>
        if rule == 2 {
          Returns(toks, yyss, yyvs, s, at);
          return Result(yyvs[|yyvs| - 1]);
        }
        ReduceGoes(toks, yyss, yyvs, s, at, rule);
        GotoGoes(toks, yyss, yyvs, s, at, rule);
        var yylen := YyR2(rule);
        var yyval := Acted(rule, yyvs);
        ActedSpoils(toks, yyss, yyvs, s, at, rule);
        if yyval == None { return DivisionByZero; }
        var state := Goto(yyss[|yyss| - yylen - 1]);
        yyss, yyvs := yyss[..|yyss| - yylen] + [state], yyvs[..|yyvs| - yylen] + [yyval.value];
        ghost var red := Reduced(s, rule).value;
        s := Push(red.below, state, Node(red.tree));
    }
  }

  /** The action divides by zero if and only if the tree of the reduction has no value. */
  lemma ActedSpoils(toks: seq<Token>, ss: seq<int>, vs: seq<int>, s: Stack, at: nat, rule: int)
    requires Going(toks, ss, vs, s, at) && Decide(Top(s), Look(toks, at)) == Reduce(rule) && rule != 2
    requires Reduced(s, rule).Some?
    ensures YyR2(rule) < |ss|
    ensures var r, q := Reduced(s, rule).value, Next(ss[|ss| - YyR2(rule) - 1]);
            Spoils(toks, s, at) <==> Acted(rule, vs) == None || Spoils(toks, Push(r.below, q, Node(r.tree)), at)
  {
    hide Spoils, Decide, Next, Value, Acted;
    ReductionActs(ss, vs, s, rule);
    var r, len := Reduced(s, rule).value, YyR2(rule);
    MirrorTop(ss[..|ss| - len], vs[..|vs| - len], r.below);
    StillLinked(toks, s, at);
    SpoilsReduced(toks, s, rule, at, Reduced(s, rule).value);
  }

  lemma Parallel(toks: seq<Token>, ss: seq<int>, vs: seq<int>, s: Stack, at: nat)
    requires Going(toks, ss, vs, s, at)
    ensures |ss| == |vs| > 0 && ss[|ss| - 1] == Top(s) && IsState(Top(s)) && at <= |toks|
  {
    LinkedState(s);
  }

  lemma DefaultNeedsNoToken(s: int, t: int, t': int)
    requires YyPact(s) != YYPACT_NINF ==> t == t'
    ensures Act(s, t) == Act(s, t') && (Act(s, t).Shift? ==> YyPact(s) != YYPACT_NINF)
  {
  }

  lemma RejectsThere(toks: seq<Token>, ss: seq<int>, vs: seq<int>, s: Stack, at: nat)
    requires Going(toks, ss, vs, s, at) && Decide(Top(s), Look(toks, at)) == Error
    ensures Outcome(toks, Bottom, 0) == Reject
  {
    StillLinked(toks, s, at);
  }

  lemma GotoGoes(toks: seq<Token>, ss: seq<int>, vs: seq<int>, s: Stack, at: nat, rule: int)
    requires Going(toks, ss, vs, s, at) && Decide(Top(s), Look(toks, at)) == Reduce(rule) && rule != 2
    ensures YyR2(rule) < |ss| && Goto(ss[|ss| - YyR2(rule) - 1]) == Next(ss[|ss| - YyR2(rule) - 1])
  {
    ReduceRuns(toks, s, at, rule);
    ReductionActs(ss, vs, s, rule);
    var r, len := Reduced(s, rule).value, YyR2(rule);
    MirrorTop(ss[..|ss| - len], vs[..|vs| - len], r.below);
    GotoIs(Top(r.below));
  }
}
