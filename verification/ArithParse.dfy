/** The parser of arithmetic expressions: the runs of its tables on a stack of trees, and the grammar. */
module ArithParse {
  import opened Bytes
  import opened ArithTables

  /** A token from the scanner: a number, or a symbol by its number in the tables. */
  datatype Token = Number(value: int) | Symbol(symbol: int)

  predicate TokensOk(toks: seq<Token>) {
    forall k :: 0 <= k < |toks| && toks[k].Symbol? ==> 4 <= toks[k].symbol <= 25
  }

  /** The number of the token at a position, 0 at the end. */
  function Look(toks: seq<Token>, pos: nat): (r: int)
    ensures TokensOk(toks) ==> IsToken(r)
  {
    if pos >= |toks| then 0 else if toks[pos].Number? then 3 else toks[pos].symbol
  }

  // ----- The grammar -----

  datatype Tree = Num(value: int) | Paren(inner: Tree) | Un(code: int, arg: Tree)
    | Bin(op: int, left: Tree, right: Tree)

  /** The tokens of an expression. */
  function Yield(t: Tree): (r: seq<Token>)
    ensures |r| > 0
  {
    match t
    case Num(v) => [Number(v)]
    case Paren(e) => [Symbol(4)] + Yield(e) + [Symbol(5)]
    case Un(c, e) => [Symbol(c)] + Yield(e)
    case Bin(c, l, r) => Yield(l) + [Symbol(c)] + Yield(r)
  }

  /** The tree is what precedence and left associativity make of its tokens: the operand of a unary
      operator is not a binary expression, a left operand binds as tightly as its operator, and a right
      operand tighter. */
  predicate Fits(t: Tree) {
    match t
    case Num(_) => true
    case Paren(e) => Fits(e)
    case Un(c, e) => Begins(c).Shift? && c != 3 && c != 4 && Fits(e) && !e.Bin?
    case Bin(c, l, r) =>
      && IsBinary(c) && Fits(l) && Fits(r)
      && (l.Bin? ==> Level(l.op) >= Level(c)) && (r.Bin? ==> Level(r.op) > Level(c))
  }

  /** The first n tokens are the expression t, and it goes on no further. */
  ghost predicate Sentence(toks: seq<Token>, t: Tree, n: nat) {
    n <= |toks| && Fits(t) && Yield(t) == toks[..n] && !IsBinary(Look(toks, n))
  }

  // ----- The runs -----

  /** What a state on the stack stands for: a token, or a finished expression. */
  datatype Sem = Tok(tok: Token) | Node(tree: Tree)

  /** The stack, without its first state 0. */
  datatype Stack = Bottom | Push(below: Stack, state: int, sem: Sem)

  function Top(s: Stack): (r: int) {
    if s.Bottom? then 0 else s.state
  }

  /** The operator that a rule's action applies. */
  function RuleUnary(rule: int): (r: int) {
    match rule case 22 => 25 case 23 => 24 case 24 => 19 case _ => 20
  }

  function RuleBinary(rule: int): (r: int) {
    match rule
    case 4 => 6 case 5 => 7 case 6 => 8 case 7 => 9 case 8 => 10 case 9 => 12 case 10 => 15 case 11 => 14 case 12 => 16
    case 13 => 13 case 14 => 11 case 15 => 18 case 16 => 17 case 17 => 20 case 18 => 19 case 19 => 23 case 20 => 22
    case _ => 21
  }

  /** What a reduction takes off the stack, and the tree it makes. */
  datatype Reduction = Reduction(below: Stack, tree: Tree)

  function Reduced(s: Stack, rule: int): (r: Option<Reduction>)
    ensures r.Some? ==> Weight(r.value.below) + 2 < Weight(s)
  {
    match s
    case Push(b, _, Tok(Number(v))) => if rule == 26 then Some(Reduction(b, Num(v))) else None
    case Push(Push(Push(b, q, Tok(tok)), q', Node(e)), _, Tok(Symbol(_))) =>
      assert Weight(s) == Weight(Push(Push(b, q, Tok(tok)), q', Node(e))) + 3;
      if rule == 3 then Some(Reduction(b, Paren(e))) else None
    case Push(Push(b, _, Tok(_)), _, Node(e)) =>
      if 22 <= rule <= 25 then Some(Reduction(b, Un(RuleUnary(rule), e)))
      else if 4 <= rule <= 21 then
        match b
        case Push(b', _, Node(l)) => Some(Reduction(b', Bin(RuleBinary(rule), l, e)))
        case _ => None
      else None
    case _ => None
  }

  function Weight(s: Stack): (r: nat) {
    match s
    case Bottom => 0
    case Push(b, _, sem) => Weight(b) + if sem.Tok? then 3 else 2
  }

  datatype Verdict = Accept(tree: Tree, n: nat) | Reject

  /** How the parse ends. Rule 2 returns at once. */
  function Outcome(toks: seq<Token>, s: Stack, pos: nat): (r: Verdict)
    requires pos <= |toks|
    decreases 4 * (|toks| - pos) + Weight(s)
  {
    match Decide(Top(s), Look(toks, pos))
    case Error => Reject
    case Shift(q) => if pos < |toks| then Outcome(toks, Push(s, q, Tok(toks[pos])), pos + 1) else Reject
    case Reduce(rule) =>
      if rule == 2 then
        match s
        case Push(_, _, Node(t)) => Accept(t, pos)
        case _ => Reject
      else
        match Reduced(s, rule)
        case None => Reject
        case Some(r) => Outcome(toks, Push(r.below, Next(Top(r.below)), Node(r.tree)), pos)
  }

  // ----- Every sentence is parsed -----

  /** A tree may stand in the place of the operand that state p awaits. */
  predicate Above(p: int, t: Tree) {
    t.Bin? ==> p == 0 || p == 2 || (p >= 15 && Level(t.op) > Level(p - 9))
  }

  predicate AtTokens(toks: seq<Token>, pos: nat, s: seq<Token>) {
    pos + |s| <= |toks| && toks[pos..pos + |s|] == s
  }

  lemma AtSplit(toks: seq<Token>, pos: nat, a: seq<Token>, b: seq<Token>)
    requires AtTokens(toks, pos, a + b)
    ensures AtTokens(toks, pos, a) && AtTokens(toks, pos + |a|, b)
  {
    assert toks[pos..pos + |a|] == (a + b)[..|a|];
    assert toks[pos + |a|..pos + |a| + |b|] == (a + b)[|a|..];
  }

  /** The tree is complete before the token t: no operator that binds tighter comes. */
  predicate Closed(t: Tree, look: int) {
    t.Bin? && IsBinary(look) ==> Level(look) <= Level(t.op)
  }

  lemma ParseNum(toks: seq<Token>, s: Stack, v: int, pos: nat)
    requires TokensOk(toks) && Awaits(Top(s)) && AtTokens(toks, pos, [Number(v)])
    ensures Outcome(toks, s, pos) == Outcome(toks, Push(s, Next(Top(s)), Node(Num(v))), pos + 1)
  {
    assert toks[pos] == toks[pos..pos + 1][0];
    var shifted := Push(s, 1, Tok(Number(v)));
    assert Outcome(toks, s, pos) == Outcome(toks, shifted, pos + 1);
  }

  /** An operand is parsed to its tree, whatever is below it. */
  lemma {:induction false} ParseTree(toks: seq<Token>, s: Stack, t: Tree, pos: nat)
    requires TokensOk(toks) && Awaits(Top(s)) && AtTokens(toks, pos, Yield(t)) && Fits(t) && Above(Top(s), t)
    requires Closed(t, Look(toks, pos + |Yield(t)|))
    ensures Outcome(toks, s, pos) == Outcome(toks, Push(s, Next(Top(s)), Node(t)), pos + |Yield(t)|)
    decreases t, 1
  {
    match t
    case Num(v) => ParseNum(toks, s, v, pos);
    case Paren(e) => ParseParen(toks, s, e, pos);
    case Un(c, e) => ParseUn(toks, s, c, e, pos);
    case Bin(c, l, r) => ParseBin(toks, s, c, l, r, pos);
  }

  lemma ShiftStep(toks: seq<Token>, s: Stack, q: int, pos: nat)
    requires pos < |toks| && Decide(Top(s), Look(toks, pos)) == Shift(q)
    ensures Outcome(toks, s, pos) == Outcome(toks, Push(s, q, Tok(toks[pos])), pos + 1)
  {
  }

  lemma ReduceStep(toks: seq<Token>, s: Stack, rule: int, pos: nat, r: Reduction)
    requires pos <= |toks| && Decide(Top(s), Look(toks, pos)) == Reduce(rule) && rule != 2
             && Reduced(s, rule) == Some(r)
    ensures Outcome(toks, s, pos) == Outcome(toks, Push(r.below, Next(Top(r.below)), Node(r.tree)), pos)
  {
  }

  lemma {:induction false} ParseParen(toks: seq<Token>, s: Stack, e: Tree, pos: nat)
    requires TokensOk(toks) && Awaits(Top(s)) && AtTokens(toks, pos, Yield(Paren(e))) && Fits(e)
    ensures Outcome(toks, s, pos) == Outcome(toks, Push(s, Next(Top(s)), Node(Paren(e))), pos + |Yield(Paren(e))|)
    decreases e, 2
  {
    hide Outcome;
    var end := pos + 1 + |Yield(e)|;
    AtSplit(toks, pos, [Symbol(4)] + Yield(e), [Symbol(5)]);
    AtSplit(toks, pos, [Symbol(4)], Yield(e));
    assert toks[pos] == toks[pos..pos + 1][0] && toks[end] == toks[end..end + 1][0];
    ShiftStep(toks, s, 2, pos);
    var s1 := Push(s, 2, Tok(Symbol(4)));
    ParseTree(toks, s1, e, pos + 1);
    var s2 := Push(s1, 9, Node(e));
    ShiftStep(toks, s2, 33, end);
    var s3 := Push(s2, 33, Tok(Symbol(5)));
    ReduceStep(toks, s3, 3, end + 1, Reduction(s, Paren(e)));
  }

  lemma {:induction false} ParseUn(toks: seq<Token>, s: Stack, c: int, e: Tree, pos: nat)
    requires TokensOk(toks) && Awaits(Top(s)) && AtTokens(toks, pos, Yield(Un(c, e))) && Fits(Un(c, e))
    ensures Outcome(toks, s, pos) == Outcome(toks, Push(s, Next(Top(s)), Node(Un(c, e))), pos + |Yield(Un(c, e))|)
    decreases e, 2
  {
    hide Outcome;
    AtSplit(toks, pos, [Symbol(c)], Yield(e));
    assert toks[pos] == toks[pos..pos + 1][0];
    var q := Begins(c).state;
    ShiftStep(toks, s, q, pos);
    var s1 := Push(s, q, Tok(Symbol(c)));
    ParseTree(toks, s1, e, pos + 1);
    var end := pos + 1 + |Yield(e)|;
    ReduceStep(toks, Push(s1, q + 7, Node(e)), UnaryRule(c), end, Reduction(s, Un(c, e)));
  }

  /** After an operand in state p, an operator that its tree may take is shifted. */
  lemma ShiftOperator(p: int, t: Tree, c: int)
    requires Awaits(p) && IsBinary(c) && Above(p, Bin(c, t, t))
    ensures Decide(Next(p), c) == Shift(c + 9)
  {
  }

  lemma {:induction false} ParseBin(toks: seq<Token>, s: Stack, c: int, l: Tree, r: Tree, pos: nat)
    requires TokensOk(toks) && Awaits(Top(s)) && AtTokens(toks, pos, Yield(Bin(c, l, r))) && Fits(Bin(c, l, r))
    requires Above(Top(s), Bin(c, l, r)) && Closed(Bin(c, l, r), Look(toks, pos + |Yield(Bin(c, l, r))|))
    ensures Outcome(toks, s, pos)
            == Outcome(toks, Push(s, Next(Top(s)), Node(Bin(c, l, r))), pos + |Yield(Bin(c, l, r))|)
    decreases Bin(c, l, r), 0
  {
    hide Outcome, TokensOk, Begins, Level, IsToken, Weight;
    var p := Top(s);
    var mid, end := pos + |Yield(l)|, pos + |Yield(l)| + 1 + |Yield(r)|;
    AtSplit(toks, pos, Yield(l) + [Symbol(c)], Yield(r));
    AtSplit(toks, pos, Yield(l), [Symbol(c)]);
    assert toks[mid] == toks[mid..mid + 1][0];
    ParseTree(toks, s, l, pos);
    ShiftOperator(p, l, c);
    var s1 := Push(s, Next(p), Node(l));
    ShiftStep(toks, s1, c + 9, mid);
    var s2 := Push(s1, c + 9, Tok(Symbol(c)));
    ParseTree(toks, s2, r, mid + 1);
    ReduceStep(toks, Push(s2, c + 28, Node(r)), BinaryRule(c), end, Reduction(s, Bin(c, l, r)));
  }

  /** A sentence is accepted, with its tree, and the rest of the tokens is not looked at. */
  lemma SentenceParsed(toks: seq<Token>, t: Tree, n: nat)
    requires TokensOk(toks) && Sentence(toks, t, n)
    ensures Outcome(toks, Bottom, 0) == Accept(t, n)
  {
    assert toks[0..|Yield(t)|] == toks[..n];
    ParseTree(toks, Bottom, t, 0);
  }

  /** No tokens have two trees. */
  lemma OneTree(toks: seq<Token>, t: Tree, n: nat, t': Tree, n': nat)
    requires TokensOk(toks) && Sentence(toks, t, n) && Sentence(toks, t', n')
    ensures t == t' && n == n'
  {
    SentenceParsed(toks, t, n);
    SentenceParsed(toks, t', n');
  }

  // ----- Whatever is accepted is a sentence -----

  /** The operator c may follow the expression l that stands in state q. */
  predicate MayFollow(q: int, l: Tree, c: int) {
    && IsBinary(c) && (q == 8 || q == 9 || (34 <= q <= 51 && Level(c) > Level(q - 28)))
    && (l.Bin? ==> Level(l.op) >= Level(c))
  }

  /** State q may be pushed on b, and this is what it stands for. */
  predicate Link(b: Stack, q: int, sem: Sem) {
    match sem
    case Node(t) => Awaits(Top(b)) && q == Next(Top(b)) && Fits(t) && Above(Top(b), t)
    case Tok(Number(_)) => Awaits(Top(b)) && q == 1
    case Tok(Symbol(c)) =>
      || (2 <= q <= 6 && Awaits(Top(b)) && Begins(c) == Shift(q))
      || (q == 33 && c == 5 && Top(b) == 9)
      || (15 <= q <= 32 && q == c + 9 && b.Push? && b.sem.Node? && MayFollow(b.state, b.sem.tree, c))
  }

  predicate Linked(s: Stack) {
    s.Push? ==> Linked(s.below) && Link(s.below, s.state, s.sem)
  }

  /** The tokens that the stack stands for. */
  function StackYield(s: Stack): (r: seq<Token>) {
    match s
    case Bottom => []
    case Push(b, _, Tok(t)) => StackYield(b) + [t]
    case Push(b, _, Node(t)) => StackYield(b) + Yield(t)
  }

  /** The expression on top is complete before the next token. */
  predicate Tight(s: Stack, look: int) {
    s.Push? && s.sem.Node? ==> Closed(s.sem.tree, look)
  }

  /** What holds between two steps. */
  ghost predicate Running(toks: seq<Token>, s: Stack, pos: nat) {
    TokensOk(toks) && pos <= |toks| && Linked(s) && StackYield(s) == toks[..pos] && Tight(s, Look(toks, pos))
  }

  /** In a linked stack, a state says what is below it. */
  lemma StateTells(s: Stack)
    requires Linked(s)
    ensures Top(s) == 0 ==> s == Bottom
    ensures Awaits(Top(s)) && s.Push? ==> s.sem.Tok? && s.sem.tok.Symbol?
    ensures Top(s) == 2 ==> s.sem == Tok(Symbol(4))
    ensures 15 <= Top(s) <= 32 ==> s.sem == Tok(Symbol(Top(s) - 9)) && s.below.Push? && s.below.sem.Node?
    ensures !Awaits(Top(s)) ==> s.Push? && (Top(s) == 1 <==> s.sem.Tok? && s.sem.tok.Number?)
    ensures Top(s) == 33 ==> s.sem == Tok(Symbol(5)) && Top(s.below) == 9
    ensures !Awaits(Top(s)) && Top(s) != 1 && Top(s) != 33 ==> s.sem.Node? && Awaits(Top(s.below))
  {
  }

  /** A shift keeps what holds between two steps. */
  lemma ShiftRuns(toks: seq<Token>, s: Stack, pos: nat, q: int)
    requires Running(toks, s, pos) && Decide(Top(s), Look(toks, pos)) == Shift(q)
    ensures pos < |toks| && Running(toks, Push(s, q, Tok(toks[pos])), pos + 1)
  {
    var look := Look(toks, pos);
    LinkedState(s);
    assert toks[..pos + 1] == toks[..pos] + [toks[pos]];
  }

  /** The state on top is one of those that the tables decide. */
  lemma LinkedState(s: Stack)
    requires Linked(s)
    ensures IsState(Top(s))
  {
    StateTells(s);
    if s.Push? { StateTells(s.below); }
  }

  /** After a reduction, the new expression is where it may be. */
  lemma NewExpression(toks: seq<Token>, b: Stack, t: Tree, pos: nat)
    requires TokensOk(toks) && pos <= |toks| && Linked(b) && Awaits(Top(b)) && Fits(t) && Above(Top(b), t)
    requires StackYield(b) + Yield(t) == toks[..pos] && Closed(t, Look(toks, pos))
    ensures Running(toks, Push(b, Next(Top(b)), Node(t)), pos)
  {
  }

  /** What a reduction must give: a tree for the top of the stack, with which the run goes on. */
  ghost predicate Reduces(toks: seq<Token>, s: Stack, pos: nat, rule: int) {
    var r := Reduced(s, rule);
    r.Some? && Running(toks, Push(r.value.below, Next(Top(r.value.below)), Node(r.value.tree)), pos)
  }

  lemma ReduceNumber(toks: seq<Token>, s: Stack, pos: nat)
    requires Running(toks, s, pos) && Top(s) == 1
    ensures Reduces(toks, s, pos, 26)
  {
    StateTells(s);
    NewExpression(toks, s.below, Num(s.sem.tok.value), pos);
  }

  lemma ReduceParen(toks: seq<Token>, s: Stack, pos: nat)
    requires Running(toks, s, pos) && Top(s) == 33
    ensures Reduces(toks, s, pos, 3)
  {
    StateTells(s);
    var inside := s.below;
    StateTells(inside);
    StateTells(inside.below);
    var b := inside.below.below;
    assert StackYield(inside) == (StackYield(b) + [Symbol(4)]) + Yield(inside.sem.tree);
    assert StackYield(b) + Yield(Paren(inside.sem.tree)) == StackYield(s);
    NewExpression(toks, b, Paren(inside.sem.tree), pos);
  }

  lemma ReduceUnary(toks: seq<Token>, s: Stack, pos: nat, c: int)
    requires Running(toks, s, pos) && 10 <= Top(s) <= 13 && c == UnaryOf(Top(s))
    ensures Reduces(toks, s, pos, UnaryRule(c))
  {
    StateTells(s);
    StateTells(s.below);
    var b, e := s.below.below, s.sem.tree;
    assert StackYield(b) + Yield(Un(c, e)) == StackYield(s);
    NewExpression(toks, b, Un(c, e), pos);
  }

  lemma BinaryYield(s: Stack, b: Stack, c: int, l: Tree, r: Tree)
    requires s.Push? && s.sem == Node(r) && s.below.Push? && s.below.sem == Tok(Symbol(c))
    requires s.below.below.Push? && s.below.below.sem == Node(l) && s.below.below.below == b
    ensures StackYield(b) + Yield(Bin(c, l, r)) == StackYield(s)
  {
    assert StackYield(s.below) == (StackYield(b) + Yield(l)) + [Symbol(c)];
  }

  lemma ReduceBinary(toks: seq<Token>, s: Stack, pos: nat, c: int)
    requires Running(toks, s, pos) && Top(s) == c + 28 && IsBinary(c)
    requires !(IsBinary(Look(toks, pos)) && Level(Look(toks, pos)) > Level(c))
    ensures Reduces(toks, s, pos, BinaryRule(c))
  {
    hide Decide;
    StateTells(s);
    StateTells(s.below);
    var under := s.below.below;
    StateTells(under);
    var b, l, r := under.below, under.sem.tree, s.sem.tree;
    BinaryYield(s, b, c, l, r);
    NewExpression(toks, b, Bin(c, l, r), pos);
  }

  lemma ReduceRuns(toks: seq<Token>, s: Stack, pos: nat, rule: int)
    requires Running(toks, s, pos) && Decide(Top(s), Look(toks, pos)) == Reduce(rule) && rule != 2
    ensures Reduces(toks, s, pos, rule)
  {
    hide Reduced, Running, Reduces;
    StillLinked(toks, s, pos);
    LinkedState(s);
    if Top(s) == 1 { ReduceNumber(toks, s, pos); }
    else if Top(s) == 33 { ReduceParen(toks, s, pos); }
    else if 10 <= Top(s) <= 13 { ReduceUnary(toks, s, pos, UnaryOf(Top(s))); }
    else if Top(s) >= 34 { ReduceBinary(toks, s, pos, Top(s) - 28); }
  }

  lemma StillLinked(toks: seq<Token>, s: Stack, pos: nat)
    requires Running(toks, s, pos)
    ensures pos <= |toks| && Linked(s) && IsToken(Look(toks, pos))
  {
  }

  /** What is accepted is a sentence. */
  lemma {:induction false} AcceptedIsSentence(toks: seq<Token>, s: Stack, pos: nat)
    requires Running(toks, s, pos)
    ensures Outcome(toks, s, pos).Accept? ==> Sentence(toks, Outcome(toks, s, pos).tree, Outcome(toks, s, pos).n)
    decreases 4 * (|toks| - pos) + Weight(s)
  {
    match Decide(Top(s), Look(toks, pos))
    case Error =>
    case Shift(q) =>
      ShiftRuns(toks, s, pos, q);
      AcceptedIsSentence(toks, Push(s, q, Tok(toks[pos])), pos + 1);
    case Reduce(rule) =>
      if rule == 2 {
        RuleTwo(toks, s, pos);
      } else {
        ReduceRuns(toks, s, pos, rule);
        var r := Reduced(s, rule).value;
        AcceptedIsSentence(toks, Push(r.below, Next(Top(r.below)), Node(r.tree)), pos);
      }
  }

  lemma RuleTwo(toks: seq<Token>, s: Stack, pos: nat)
    requires Running(toks, s, pos) && Decide(Top(s), Look(toks, pos)) == Reduce(2)
    ensures s.Push? && s.sem.Node? && s.below == Bottom && Sentence(toks, s.sem.tree, pos)
  {
    LinkedState(s);
    StateTells(s);
    StateTells(s.below);
    assert StackYield(s) == [] + Yield(s.sem.tree);
  }

  /** The parser accepts exactly the sentences, with their trees. */
  lemma AcceptsSentences(toks: seq<Token>, t: Tree, n: nat)
    requires TokensOk(toks)
    ensures Outcome(toks, Bottom, 0) == Accept(t, n) <==> Sentence(toks, t, n)
  {
    if Sentence(toks, t, n) { SentenceParsed(toks, t, n); }
    AcceptedIsSentence(toks, Bottom, 0);
  }
}
