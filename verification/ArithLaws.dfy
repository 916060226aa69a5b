/** What the arithmetic operators compute, in terms of 32-bit integers. */
module ArithLaws {
  import opened Bytes
  import opened ArithTables
  import opened ArithParse
  import opened ArithEval

  predicate InRange(x: int) {
    -0x8000_0000 <= x <= 0x7fff_ffff
  }

  /** The 32-bit integer that x wraps around to. */
  predicate WrapsTo(x: int, r: int) {
    InRange(r) && (x - r) % 0x1_0000_0000 == 0
  }

  /** Bit k of a number in two's complement. */
  predicate Bit(x: int, k: nat) {
    x / PowerOfTwo(k) % 2 == 1
  }

  /** q and m are the quotient that drops the fraction and its remainder, which has the sign of a or is 0. */
  predicate Divides(a: int, b: int, q: int, m: int) {
    && a == q * b + m && (if b < 0 then b < m < -b else -b < m < b)
    && (a >= 0 ==> m >= 0) && (a <= 0 ==> m <= 0)
  }

  /** What the operator with this symbol yields for two operands. */
  ghost predicate Meets(op: int, a: int, b: int, r: Option<int>) {
    if (op == 21 || op == 22) && b == 0 then r.None?
    else
      && r.Some? && InRange(r.value)
      && var x := r.value;
         match op
         case 6 => if a != 0 then x == a else x == b
         case 7 => if a != 0 then x == b else x == 0
         case 8 => forall k: nat :: k < 32 ==> (Bit(x, k) <==> Bit(a, k) || Bit(b, k))
         case 9 => forall k: nat :: k < 32 ==> (Bit(x, k) <==> Bit(a, k) != Bit(b, k))
         case 10 => forall k: nat :: k < 32 ==> (Bit(x, k) <==> Bit(a, k) && Bit(b, k))
         case 11 => x in {0, 1} && (x == 1 <==> a != b)
         case 12 => x in {0, 1} && (x == 1 <==> a == b)
         case 13 => x in {0, 1} && (x == 1 <==> a <= b)
         case 14 => x in {0, 1} && (x == 1 <==> a >= b)
         case 15 => x in {0, 1} && (x == 1 <==> a > b)
         case 16 => x in {0, 1} && (x == 1 <==> a < b)
         case 17 => var p := PowerOfTwo(b % 32); x * p <= a < (x + 1) * p
         case 18 => WrapsTo(a * PowerOfTwo(b % 32), x)
         case 19 => WrapsTo(a - b, x)
         case 20 => WrapsTo(a + b, x)
         case 21 => exists q :: Divides(a, b, q, x)
         case 22 => exists q, m :: Divides(a, b, q, m) && WrapsTo(q, x)
         case _ => WrapsTo(a * b, x)
  }

  ghost predicate MeetsUnary(op: int, a: int, x: int) {
    && InRange(x)
    && match op
       case 19 => WrapsTo(-a, x)
       case 20 => x == a
       case 24 => forall k: nat :: k < 32 ==> (Bit(x, k) <==> !Bit(a, k))
       case _ => x in {0, 1} && (x == 1 <==> a == 0)
  }

  // ----- Division -----

  lemma Multiples(k: int, d: int)
    requires d > 0
    ensures (k >= 1 ==> k * d >= d && k * d >= k) && (k <= -1 ==> k * d <= -d && k * d <= k)
  {
    assert k >= 1 ==> (k - 1) * d >= 0 && k * (d - 1) >= 0;
    assert k <= -1 ==> (k + 1) * d <= 0 && k * (d - 1) <= 0;
  }

  lemma DivUnique(x: int, d: int, q: int, r: int)
    requires d > 0 && x == q * d + r && 0 <= r < d
    ensures x / d == q && x % d == r
  {
    var p, m := x / d, x % d;
    DivMod(x, d);
    assert (q - p) * d == q * d - p * d == m - r;
    Multiples(q - p, d);
  }

  lemma DivMod(x: int, d: int)
    requires d > 0
    ensures x == x / d * d + x % d && 0 <= x % d < d
  {
  }

  lemma WrapWraps(x: int)
    ensures WrapsTo(x, Wrap(x))
  {
  }

  lemma WrapKeeps(x: int)
    requires InRange(x)
    ensures Wrap(x) == x
  {
  }

  lemma QuotientDivides(a: int, b: int)
    requires b != 0
    ensures Divides(a, b, Quotient(a, b), a - b * Quotient(a, b))
  {
    var x, y := if a < 0 then -a else a, if b < 0 then -b else b;
    DivMod(x, y);
    Multiples(x / y, y);
    Signs(a, b, x / y, y);
    Remains(a, b, x / y * y, x % y, b * Quotient(a, b));
    Commutes(b, Quotient(a, b));
  }

  lemma Remains(a: int, b: int, t: int, m: int, p: int)
    requires (if a < 0 then -a else a) == t + m && 0 <= t && 0 <= m < (if b < 0 then -b else b)
    requires p == if a < 0 then -t else t
    ensures if b < 0 then b < a - p < -b else -b < a - p < b
    ensures (a >= 0 ==> a - p >= 0) && (a <= 0 ==> a - p <= 0)
  {
  }

  lemma Commutes(a: int, b: int)
    ensures a * b == b * a
  {
  }

  lemma Signs(a: int, b: int, q: int, y: int)
    requires y == (if b < 0 then -b else b)
    ensures b * (if (a < 0) == (b < 0) then q else -q) == if a < 0 then -(q * y) else q * y
  {
  }

  // ----- Bits -----

  lemma HalfDiv(x: int, d: int)
    requires d > 0
    ensures x / (2 * d) == x / 2 / d
  {
    var h, t := x / 2, x % 2;
    var q, r := h / d, h % d;
    assert x == q * (2 * d) + (2 * r + t);
    DivUnique(x, 2 * d, q, 2 * r + t);
  }

  lemma BitNext(x: int, k: nat)
    ensures Bit(x, k + 1) <==> Bit(x / 2, k)
  {
    HalfDiv(x, PowerOfTwo(k));
  }

  lemma BitZero(x: int)
    ensures Bit(x, 0) <==> x % 2 == 1
  {
  }

  lemma {:induction false} BitwiseBits(op: int, a: int, b: int, n: nat, k: nat)
    requires k < n
    ensures Bit(Bitwise(op, a, b, n), k) <==> BitOp(op, Bit(a, k), Bit(b, k))
    decreases n
  {
    hide Bit;
    var r, rest, low := Bitwise(op, a, b, n), Bitwise(op, a / 2, b / 2, n - 1),
        Truth(BitOp(op, a % 2 == 1, b % 2 == 1));
    assert r == 2 * rest + low && r / 2 == rest && r % 2 == low;
    if k == 0 {
      BitZero(r);
      BitZero(a);
      BitZero(b);
    } else {
      BitNext(r, k - 1);
      BitNext(a, k - 1);
      BitNext(b, k - 1);
      BitwiseBits(op, a / 2, b / 2, n - 1, k - 1);
    }
  }

  /** Adding multiples of 2^n changes no bit below n. */
  lemma {:induction false} BitWhole(x: int, m: int, n: nat, k: nat)
    requires k < n
    ensures Bit(x + m * PowerOfTwo(n), k) <==> Bit(x, k)
    decreases k
  {
    hide Bit;
    var p := PowerOfTwo(n - 1);
    var y := x + m * PowerOfTwo(n);
    assert y == x + 2 * (m * p);
    assert y / 2 == x / 2 + m * p && y % 2 == x % 2;
    if k == 0 {
      BitZero(x);
      BitZero(y);
    } else {
      BitNext(x, k - 1);
      BitNext(y, k - 1);
      BitWhole(x / 2, m, n - 1, k - 1);
    }
  }

  lemma PowerOf32()
    ensures PowerOfTwo(32) == 0x1_0000_0000
  {
    PowerAdds(4, 4);
    PowerAdds(8, 8);
    PowerAdds(16, 16);
    assert PowerOfTwo(4) == 2 * PowerOfTwo(3) == 4 * PowerOfTwo(2) == 8 * PowerOfTwo(1) == 16;
  }

  lemma {:induction false} PowerAdds(m: nat, n: nat)
    ensures PowerOfTwo(m + n) == PowerOfTwo(m) * PowerOfTwo(n)
  {
    if m > 0 { PowerAdds(m - 1, n); }
  }

  lemma WrapBits(x: int, k: nat)
    requires k < 32
    ensures Bit(Wrap(x), k) <==> Bit(x, k)
  {
    var m := (Wrap(x) - x) / 0x1_0000_0000;
    assert Wrap(x) == x + m * 0x1_0000_0000;
    PowerOf32();
    BitWhole(x, m, 32, k);
  }

  lemma {:induction false} BitNot(x: int, k: nat)
    ensures Bit(-x - 1, k) <==> !Bit(x, k)
    decreases k
  {
    hide Bit;
    var y := -x - 1;
    assert y / 2 == -(x / 2) - 1 && (y % 2 == 1 <==> x % 2 == 0);
    if k == 0 {
      BitZero(x);
      BitZero(y);
    } else {
      BitNext(x, k - 1);
      BitNext(y, k - 1);
      BitNot(x / 2, k - 1);
    }
  }

  // ----- The operators -----

  lemma BitsMeet(op: int, a: int, b: int)
    requires 8 <= op <= 10
    ensures Meets(op, a, b, Apply(op, a, b))
  {
    hide Bit, Bitwise;
    var x := Bitwise(op, a, b, 32);
    WrapWraps(x);
    forall k: nat | k < 32
      ensures Bit(Wrap(x), k) <==> BitOp(op, Bit(a, k), Bit(b, k))
    {
      WrapBits(x, k);
      BitwiseBits(op, a, b, 32, k);
    }
  }

  lemma ShiftsMeet(op: int, a: int, b: int)
    requires 17 <= op <= 18 && InRange(a)
    ensures Meets(op, a, b, Apply(op, a, b))
  {
    hide Bit, Bitwise;
    var p := PowerOfTwo(b % 32);
    if op == 17 {
      var x, m := a / p, a % p;
      assert a == x * p + m;
      assert (x + 1) * p == x * p + p;
      ShiftInRange(a, p);
    } else {
      WrapWraps(a * p);
    }
  }

  lemma ShiftInRange(a: int, p: int)
    requires InRange(a) && p > 0
    ensures InRange(a / p)
  {
    var x := a / p;
    DivMod(a, p);
    Multiples(x, p);
    Multiples(x + 1, p);
    assert (x + 1) * p == x * p + p;
  }

  lemma DivisionMeets(op: int, a: int, b: int)
    requires 21 <= op <= 22 && InRange(a) && InRange(b)
    ensures Meets(op, a, b, Apply(op, a, b))
  {
    hide Bit, Bitwise;
    if b != 0 {
      var q := Quotient(a, b);
      QuotientDivides(a, b);
      if op == 21 { WrapKeeps(a - b * q); } else { WrapWraps(q); }
    }
  }

  /** Every binary operator computes what it should. */
  lemma OperatorMeets(op: int, a: int, b: int)
    requires IsBinary(op) && InRange(a) && InRange(b)
    ensures Meets(op, a, b, Apply(op, a, b))
  {
    hide Bit, Bitwise;
    if 8 <= op <= 10 {
      BitsMeet(op, a, b);
    } else if 17 <= op <= 18 {
      ShiftsMeet(op, a, b);
    } else if 21 <= op <= 22 {
      DivisionMeets(op, a, b);
    } else {
      WrapWraps(a - b);
      WrapWraps(a + b);
      WrapWraps(a * b);
    }
  }

  /** So does every unary one. */
  lemma UnaryMeets(op: int, a: int)
    requires op in {19, 20, 24, 25} && InRange(a)
    ensures MeetsUnary(op, a, ApplyUnary(op, a))
  {
    hide Bit;
    WrapWraps(-a);
    forall k: nat | k < 32
      ensures Bit(-a - 1, k) <==> !Bit(a, k)
    {
      BitNot(a, k);
    }
  }

  // ----- Expressions -----

  predicate NumbersInRange(t: Tree) {
    match t
    case Num(v) => InRange(v)
    case Paren(e) => NumbersInRange(e)
    case Un(_, e) => NumbersInRange(e)
    case Bin(_, l, r) => NumbersInRange(l) && NumbersInRange(r)
  }

  /** v is what the expression yields, operator by operator, or nothing where it divides by zero. */
  ghost predicate Yields(t: Tree, v: Option<int>) {
    match t
    case Num(n) => v == Some(n)
    case Paren(e) => Yields(e, v)
    case Un(c, e) =>
      exists a :: Yields(e, a) && (if a.None? then v.None? else v.Some? && MeetsUnary(c, a.value, v.value))
    case Bin(c, l, r) =>
      exists a, b ::
        Yields(l, a) && Yields(r, b) && (if a.None? || b.None? then v.None? else Meets(c, a.value, b.value, v))
  }

  /** The value of an expression is what its operators yield, and is a 32-bit integer. */
  lemma {:induction false} ValueYields(t: Tree)
    requires Fits(t) && NumbersInRange(t)
    ensures Yields(t, Value(t)) && (Value(t).Some? ==> InRange(Value(t).value))
  {
    hide Meets, MeetsUnary, Apply, ApplyUnary;
    match t
    case Num(_) =>
    case Paren(e) => ValueYields(e);
    case Un(c, e) =>
      ValueYields(e);
      if Value(e).Some? {
        UnaryMeets(c, Value(e).value);
        UnaryInRange(c, Value(e).value, ApplyUnary(c, Value(e).value));
      }
    case Bin(c, l, r) =>
      ValueYields(l);
      ValueYields(r);
      if Value(l).Some? && Value(r).Some? {
        OperatorMeets(c, Value(l).value, Value(r).value);
        MeetsInRange(c, Value(l).value, Value(r).value, Apply(c, Value(l).value, Value(r).value));
      }
  }

  lemma UnaryInRange(op: int, a: int, x: int)
    requires MeetsUnary(op, a, x)
    ensures InRange(x)
  {
  }

  lemma MeetsInRange(op: int, a: int, b: int, r: Option<int>)
    requires Meets(op, a, b, r)
    ensures r.Some? ==> InRange(r.value)
  {
    hide Bit;
  }

  /** x op y is parsed to what the operator yields for x and y, or to a division by zero. */
  lemma BinaryComputes(x: int, op: int, y: int, r: Parsed)
    requires IsBinary(op) && InRange(x) && InRange(y)
    requires TokensOk([Number(x), Symbol(op), Number(y)]) && ParsedAs([Number(x), Symbol(op), Number(y)], r)
    ensures r.Result? || r.DivisionByZero?
    ensures Meets(op, x, y, if r.Result? then Some(r.value) else None)
  {
    hide Meets, Apply, Outcome;
    var toks, t := [Number(x), Symbol(op), Number(y)], Bin(op, Num(x), Num(y));
    assert Yield(Num(x)) == [Number(x)] && Yield(Num(y)) == [Number(y)];
    assert Yield(t) == toks == toks[..3] && Look(toks, 3) == 0;
    assert Fits(Num(x)) && Fits(Num(y)) && Fits(t);
    assert Sentence(toks, t, 3);
    AcceptsSentences(toks, t, 3);
    assert Value(Num(x)) == Some(x) && Value(Num(y)) == Some(y) && Value(t) == Apply(op, x, y);
    OperatorMeets(op, x, y);
  }

  /** Every sentence is parsed to what its expression yields. */
  lemma SentenceYields(toks: seq<Token>, t: Tree, n: nat, r: Parsed)
    requires TokensOk(toks) && Sentence(toks, t, n) && NumbersInRange(t) && ParsedAs(toks, r)
    ensures r.Result? || r.DivisionByZero?
    ensures Yields(t, if r.Result? then Some(r.value) else None)
  {
    hide Yields, Value, Outcome;
    AcceptsSentences(toks, t, n);
    ValueYields(t);
  }

  // ----- Precedence -----

  /** The binary operators of C by how tightly they bind: ||, &&, |, ^, &, then != and ==, the four comparisons, the two
      shifts, - and +, and %, / and *. */
  const C_ORDER: seq<set<int>> :=
    [{6}, {7}, {8}, {9}, {10}, {11, 12}, {13, 14, 15, 16}, {17, 18}, {19, 20}, {21, 22, 23}]

  lemma OrderIsLevel(op: int, i: nat)
    requires i < 10 && op in C_ORDER[i]
    ensures IsBinary(op) && Level(op) == i + 1
  {
  }

  /** x op y op' z is computed from the left if the first operator binds as tightly as the second, and from the right
      if the second binds tighter. */
  lemma TwoOperators(x: int, op: int, y: int, op': int, z: int, i: nat, j: nat, r: Parsed)
    requires i < 10 && j < 10 && op in C_ORDER[i] && op' in C_ORDER[j] && InRange(x) && InRange(y) && InRange(z)
    requires var toks := [Number(x), Symbol(op), Number(y), Symbol(op'), Number(z)];
             TokensOk(toks) && ParsedAs(toks, r)
    ensures r.Result? || r.DivisionByZero?
    ensures var v := if r.Result? then Some(r.value) else None;
            if i >= j then
              exists a :: Meets(op, x, y, a) && (if a.None? then v.None? else Meets(op', a.value, z, v))
            else
              exists a :: Meets(op', y, z, a) && (if a.None? then v.None? else Meets(op, x, a.value, v))
  {
    hide Meets, Outcome, Yields, ParsedAs, Value;
    OrderIsLevel(op, i);
    OrderIsLevel(op', j);
    var toks := [Number(x), Symbol(op), Number(y), Symbol(op'), Number(z)];
    var t := if i >= j then Bin(op', Bin(op, Num(x), Num(y)), Num(z)) else Bin(op, Num(x), Bin(op', Num(y), Num(z)));
    TwoYield(x, op, y, op', z);
    assert toks == toks[..5] && Look(toks, 5) == 0;
    assert Fits(Num(x)) && Fits(Num(y)) && Fits(Num(z));
    assert Fits(Bin(op, Num(x), Num(y))) && Fits(Bin(op', Num(y), Num(z))) && Fits(t);
    assert NumbersInRange(Num(x)) && NumbersInRange(Num(y)) && NumbersInRange(Num(z));
    assert NumbersInRange(Bin(op, Num(x), Num(y))) && NumbersInRange(Bin(op', Num(y), Num(z)));
    SentenceYields(toks, t, 5, r);
    var v := if r.Result? then Some(r.value) else None;
    if i >= j { YieldsLeft(x, op, y, op', z, v); } else { YieldsRight(x, op, y, op', z, v); }
  }

  /** A unary operator binds tighter than any binary one, and parentheses make one operand. */
  lemma OperandsFirst(u: int, x: int, op: int, y: int, op': int, z: int, r: Parsed, q: Parsed)
    requires u in {19, 20, 24, 25} && IsBinary(op) && IsBinary(op') && InRange(x) && InRange(y) && InRange(z)
    requires var toks := [Symbol(u), Number(x), Symbol(op), Number(y)]; TokensOk(toks) && ParsedAs(toks, r)
    requires var toks := [Number(x), Symbol(op), Symbol(4), Number(y), Symbol(op'), Number(z), Symbol(5)];
             TokensOk(toks) && ParsedAs(toks, q)
    ensures Yields(Bin(op, Un(u, Num(x)), Num(y)), if r.Result? then Some(r.value) else None)
    ensures Yields(Bin(op, Num(x), Paren(Bin(op', Num(y), Num(z)))), if q.Result? then Some(q.value) else None)
  {
    hide Meets, Outcome, Yields, ParsedAs, Value;
    var a := [Symbol(u), Number(x), Symbol(op), Number(y)];
    var b := [Number(x), Symbol(op), Symbol(4), Number(y), Symbol(op'), Number(z), Symbol(5)];
    assert a[..4] == a && b[..7] == b && Look(a, 4) == 0 && Look(b, 7) == 0;
    var t, v := Bin(op, Un(u, Num(x)), Num(y)), Bin(op', Num(y), Num(z));
    assert Yield(Un(u, Num(x))) == [Symbol(u), Number(x)] && Yield(t) == a;
    assert Yield(v) == [Number(y), Symbol(op'), Number(z)];
    assert Yield(Paren(v)) == [Symbol(4), Number(y), Symbol(op'), Number(z), Symbol(5)];
    assert Yield(Bin(op, Num(x), Paren(v))) == b;
    assert Fits(Num(x)) && Fits(Num(y)) && Fits(Num(z)) && Fits(Un(u, Num(x))) && Fits(v) && Fits(Paren(v));
    assert NumbersInRange(Num(x)) && NumbersInRange(Num(y)) && NumbersInRange(Num(z));
    assert NumbersInRange(Un(u, Num(x))) && NumbersInRange(v) && NumbersInRange(Paren(v));
    SentenceYields(a, t, 4, r);
    SentenceYields(b, Bin(op, Num(x), Paren(v)), 7, q);
  }

  lemma TwoYield(x: int, op: int, y: int, op': int, z: int)
    ensures var toks := [Number(x), Symbol(op), Number(y), Symbol(op'), Number(z)];
            && Yield(Bin(op', Bin(op, Num(x), Num(y)), Num(z))) == toks
            && Yield(Bin(op, Num(x), Bin(op', Num(y), Num(z)))) == toks
  {
    assert Yield(Bin(op, Num(x), Num(y))) == [Number(x), Symbol(op), Number(y)];
    assert Yield(Bin(op', Num(y), Num(z))) == [Number(y), Symbol(op'), Number(z)];
  }

  lemma YieldsLeft(x: int, op: int, y: int, op': int, z: int, v: Option<int>)
    requires Yields(Bin(op', Bin(op, Num(x), Num(y)), Num(z)), v)
    ensures exists a :: Meets(op, x, y, a) && (if a.None? then v.None? else Meets(op', a.value, z, v))
  {
    hide Meets, Yields;
    var a, b := BinYields(op', Bin(op, Num(x), Num(y)), Num(z), v);
    YieldsPlain(x, op, y, a);
    NumYields(z, b);
  }

  lemma YieldsRight(x: int, op: int, y: int, op': int, z: int, v: Option<int>)
    requires Yields(Bin(op, Num(x), Bin(op', Num(y), Num(z))), v)
    ensures exists a :: Meets(op', y, z, a) && (if a.None? then v.None? else Meets(op, x, a.value, v))
  {
    hide Meets, Yields;
    var a, b := BinYields(op, Num(x), Bin(op', Num(y), Num(z)), v);
    NumYields(x, a);
    YieldsPlain(y, op', z, b);
  }

  lemma BinYields(op: int, l: Tree, r: Tree, v: Option<int>) returns (a: Option<int>, b: Option<int>)
    requires Yields(Bin(op, l, r), v)
    ensures Yields(l, a) && Yields(r, b) && (if a.None? || b.None? then v.None? else Meets(op, a.value, b.value, v))
  {
    hide Meets;
    a, b :| Yields(l, a) && Yields(r, b) && (if a.None? || b.None? then v.None? else Meets(op, a.value, b.value, v));
  }

  lemma NumYields(x: int, v: Option<int>)
    requires Yields(Num(x), v)
    ensures v == Some(x)
  {
  }

  lemma YieldsPlain(x: int, op: int, y: int, v: Option<int>)
    requires Yields(Bin(op, Num(x), Num(y)), v)
    ensures Meets(op, x, y, v)
  {
    hide Meets, Yields;
    var a, b := BinYields(op, Num(x), Num(y), v);
    NumYields(x, a);
    NumYields(y, b);
  }
}
