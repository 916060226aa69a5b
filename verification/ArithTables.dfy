/** The tables of the arithmetic parser, and what they say. Tokens and states are numbers, as in the tables. */
module ArithTables {
  /** Where the row of a state starts in YyTable; -13 where there is only the default. */
  function YyPact(i: int): (r: int) {
    match i
    case 0 => 28 case 1 => -13 case 2 => 28 case 3 => 28 case 4 => 28
    case 5 => 28 case 6 => 28 case 7 => 12 case 8 => 67 case 9 => 49
    case 10 => -13 case 11 => -13 case 12 => -13 case 13 => -13 case 14 => -13
    case 15 => 28 case 16 => 28 case 17 => 28 case 18 => 28 case 19 => 28
    case 20 => 28 case 21 => 28 case 22 => 28 case 23 => 28 case 24 => 28
    case 25 => 28 case 26 => 28 case 27 => 28 case 28 => 28 case 29 => 28
    case 30 => 28 case 31 => 28 case 32 => 28 case 33 => -13 case 34 => 84
    case 35 => 100 case 36 => 115 case 37 => 23 case 38 => 128 case 39 => 139
    case 40 => 139 case 41 => -12 case 42 => -12 case 43 => -12 case 44 => -12
    case 45 => 144 case 46 => 144 case 47 => 147 case 48 => 147 case 49 => -13
    case 50 => -13 case 51 => -13
    case _ => -13
  }

  /** The rule a state reduces by default, or 0. */
  function YyDefact(i: int): (r: int) {
    match i
    case 0 => 0 case 1 => 26 case 2 => 0 case 3 => 0 case 4 => 0
    case 5 => 0 case 6 => 0 case 7 => 0 case 8 => 2 case 9 => 0
    case 10 => 24 case 11 => 25 case 12 => 23 case 13 => 22 case 14 => 1
    case 15 => 0 case 16 => 0 case 17 => 0 case 18 => 0 case 19 => 0
    case 20 => 0 case 21 => 0 case 22 => 0 case 23 => 0 case 24 => 0
    case 25 => 0 case 26 => 0 case 27 => 0 case 28 => 0 case 29 => 0
    case 30 => 0 case 31 => 0 case 32 => 0 case 33 => 3 case 34 => 4
    case 35 => 5 case 36 => 6 case 37 => 7 case 38 => 8 case 39 => 14
    case 40 => 9 case 41 => 13 case 42 => 11 case 43 => 10 case 44 => 12
    case 45 => 16 case 46 => 15 case 47 => 18 case 48 => 17 case 49 => 21
    case 50 => 20 case 51 => 19
    case _ => 0
  }

  /** What to do, as far as YyCheck agrees. */
  function YyTable(i: int): (r: int) {
    match i
    case 0 => 9 case 1 => 10 case 2 => 11 case 3 => 12 case 4 => 13
    case 5 => 26 case 6 => 27 case 7 => 28 case 8 => 29 case 9 => 30
    case 10 => 31 case 11 => 32 case 12 => 14 case 13 => 34 case 14 => 35
    case 15 => 36 case 16 => 37 case 17 => 38 case 18 => 39 case 19 => 40
    case 20 => 41 case 21 => 42 case 22 => 43 case 23 => 44 case 24 => 45
    case 25 => 46 case 26 => 47 case 27 => 48 case 28 => 49 case 29 => 50
    case 30 => 51 case 31 => 1 case 32 => 2 case 33 => 19 case 34 => 20
    case 35 => 21 case 36 => 22 case 37 => 23 case 38 => 24 case 39 => 25
    case 40 => 26 case 41 => 27 case 42 => 28 case 43 => 29 case 44 => 30
    case 45 => 31 case 46 => 32 case 47 => 3 case 48 => 4 case 49 => 0
    case 50 => 0 case 51 => 0 case 52 => 5 case 53 => 6 case 54 => 33
    case 55 => 15 case 56 => 16 case 57 => 17 case 58 => 18 case 59 => 19
    case 60 => 20 case 61 => 21 case 62 => 22 case 63 => 23 case 64 => 24
    case 65 => 25 case 66 => 26 case 67 => 27 case 68 => 28 case 69 => 29
    case 70 => 30 case 71 => 31 case 72 => 32 case 73 => 15 case 74 => 16
    case 75 => 17 case 76 => 18 case 77 => 19 case 78 => 20 case 79 => 21
    case 80 => 22 case 81 => 23 case 82 => 24 case 83 => 25 case 84 => 26
    case 85 => 27 case 86 => 28 case 87 => 29 case 88 => 30 case 89 => 31
    case 90 => 32 case 91 => 16 case 92 => 17 case 93 => 18 case 94 => 19
    case 95 => 20 case 96 => 21 case 97 => 22 case 98 => 23 case 99 => 24
    case 100 => 25 case 101 => 26 case 102 => 27 case 103 => 28 case 104 => 29
    case 105 => 30 case 106 => 31 case 107 => 32 case 108 => 17 case 109 => 18
    case 110 => 19 case 111 => 20 case 112 => 21 case 113 => 22 case 114 => 23
    case 115 => 24 case 116 => 25 case 117 => 26 case 118 => 27 case 119 => 28
    case 120 => 29 case 121 => 30 case 122 => 31 case 123 => 32 case 124 => 18
    case 125 => 19 case 126 => 20 case 127 => 21 case 128 => 22 case 129 => 23
    case 130 => 24 case 131 => 25 case 132 => 26 case 133 => 27 case 134 => 28
    case 135 => 29 case 136 => 30 case 137 => 31 case 138 => 32 case 139 => 20
    case 140 => 21 case 141 => 22 case 142 => 23 case 143 => 24 case 144 => 25
    case 145 => 26 case 146 => 27 case 147 => 28 case 148 => 29 case 149 => 30
    case 150 => 31 case 151 => 32 case 152 => 22 case 153 => 23 case 154 => 24
    case 155 => 25 case 156 => 26 case 157 => 27 case 158 => 28 case 159 => 29
    case 160 => 30 case 161 => 31 case 162 => 32 case 163 => 28 case 164 => 29
    case 165 => 30 case 166 => 31 case 167 => 32 case 168 => 30 case 169 => 31
    case 170 => 32
    case _ => 0
  }

  /** The token, or the state, that an entry of YyTable is for. */
  function YyCheck(i: int): (r: int) {
    match i
    case 0 => 2 case 1 => 3 case 2 => 4 case 3 => 5 case 4 => 6
    case 5 => 17 case 6 => 18 case 7 => 19 case 8 => 20 case 9 => 21
    case 10 => 22 case 11 => 23 case 12 => 0 case 13 => 15 case 14 => 16
    case 15 => 17 case 16 => 18 case 17 => 19 case 18 => 20 case 19 => 21
    case 20 => 22 case 21 => 23 case 22 => 24 case 23 => 25 case 24 => 26
    case 25 => 27 case 26 => 28 case 27 => 29 case 28 => 30 case 29 => 31
    case 30 => 32 case 31 => 3 case 32 => 4 case 33 => 10 case 34 => 11
    case 35 => 12 case 36 => 13 case 37 => 14 case 38 => 15 case 39 => 16
    case 40 => 17 case 41 => 18 case 42 => 19 case 43 => 20 case 44 => 21
    case 45 => 22 case 46 => 23 case 47 => 19 case 48 => 20 case 49 => -1
    case 50 => -1 case 51 => -1 case 52 => 24 case 53 => 25 case 54 => 5
    case 55 => 6 case 56 => 7 case 57 => 8 case 58 => 9 case 59 => 10
    case 60 => 11 case 61 => 12 case 62 => 13 case 63 => 14 case 64 => 15
    case 65 => 16 case 66 => 17 case 67 => 18 case 68 => 19 case 69 => 20
    case 70 => 21 case 71 => 22 case 72 => 23 case 73 => 6 case 74 => 7
    case 75 => 8 case 76 => 9 case 77 => 10 case 78 => 11 case 79 => 12
    case 80 => 13 case 81 => 14 case 82 => 15 case 83 => 16 case 84 => 17
    case 85 => 18 case 86 => 19 case 87 => 20 case 88 => 21 case 89 => 22
    case 90 => 23 case 91 => 7 case 92 => 8 case 93 => 9 case 94 => 10
    case 95 => 11 case 96 => 12 case 97 => 13 case 98 => 14 case 99 => 15
    case 100 => 16 case 101 => 17 case 102 => 18 case 103 => 19 case 104 => 20
    case 105 => 21 case 106 => 22 case 107 => 23 case 108 => 8 case 109 => 9
    case 110 => 10 case 111 => 11 case 112 => 12 case 113 => 13 case 114 => 14
    case 115 => 15 case 116 => 16 case 117 => 17 case 118 => 18 case 119 => 19
    case 120 => 20 case 121 => 21 case 122 => 22 case 123 => 23 case 124 => 9
    case 125 => 10 case 126 => 11 case 127 => 12 case 128 => 13 case 129 => 14
    case 130 => 15 case 131 => 16 case 132 => 17 case 133 => 18 case 134 => 19
    case 135 => 20 case 136 => 21 case 137 => 22 case 138 => 23 case 139 => 11
    case 140 => 12 case 141 => 13 case 142 => 14 case 143 => 15 case 144 => 16
    case 145 => 17 case 146 => 18 case 147 => 19 case 148 => 20 case 149 => 21
    case 150 => 22 case 151 => 23 case 152 => 13 case 153 => 14 case 154 => 15
    case 155 => 16 case 156 => 17 case 157 => 18 case 158 => 19 case 159 => 20
    case 160 => 21 case 161 => 22 case 162 => 23 case 163 => 19 case 164 => 20
    case 165 => 21 case 166 => 22 case 167 => 23 case 168 => 21 case 169 => 22
    case 170 => 23
    case _ => -1
  }

  /** The length of the right side of a rule. */
  function YyR2(i: int): (r: int) {
    match i
    case 0 => 0 case 1 => 2 case 2 => 1 case 3 => 3 case 4 => 3
    case 5 => 3 case 6 => 3 case 7 => 3 case 8 => 3 case 9 => 3
    case 10 => 3 case 11 => 3 case 12 => 3 case 13 => 3 case 14 => 3
    case 15 => 3 case 16 => 3 case 17 => 3 case 18 => 3 case 19 => 3
    case 20 => 3 case 21 => 3 case 22 => 2 case 23 => 2 case 24 => 2 case 25 => 2 case 26 => 1
    case _ => 0
  }

  const YYPACT_NINF := -13
  const YYLAST := 170
  const YYFINAL := 14

  datatype Action = Shift(state: int) | Reduce(rule: int) | Error

  function Default(s: int): (r: Action) {
    if YyDefact(s) == 0 then Error else Reduce(YyDefact(s))
  }

  /** What the tables say for a state and the next token. */
  function Act(s: int, t: int): (r: Action) {
    var n := YyPact(s) + t;
    if YyPact(s) == YYPACT_NINF || n < 0 || YYLAST < n || YyCheck(n) != t then Default(s)
    else if YyTable(n) <= 0 then Error
    else Shift(YyTable(n))
  }

  /** The state after a reduction to expr, seen from the state below. */
  function Goto(s: int): (r: int) {
    var n := s - 2;
    if 0 <= n <= YYLAST && YyCheck(n) == s then YyTable(n) else 8
  }

  // ----- The grammar behind the tables -----

  predicate IsToken(t: int) {
    t == 0 || 3 <= t <= 25
  }

  predicate IsBinary(t: int) {
    6 <= t <= 23
  }

  /** How tightly a binary operator binds: ||, &&, |, ^, &, equality, order, shifts, sums, products. */
  function Level(t: int): (r: int) {
    if t <= 10 then t - 5 else if t <= 12 then 6 else if t <= 16 then 7 else if t <= 18 then 8 else if t <= 20 then 9
        else 10
  }

  /** States in which an operand must come: at the start, and after (, a unary or a binary operator. */
  predicate Awaits(s: int) {
    s == 0 || 2 <= s <= 6 || 15 <= s <= 32
  }

  /** What an operand may begin with: a number, (, -, +, ~ or !. */
  function Begins(t: int): (r: Action) {
    match t
    case 3 => Shift(1) case 4 => Shift(2) case 19 => Shift(3) case 20 => Shift(4) case 24 => Shift(5)
    case 25 => Shift(6)
    case _ => Error
  }

  /** The rule for a binary operator, and for a unary one. */
  function BinaryRule(t: int): (r: int) {
    match t
    case 6 => 4 case 7 => 5 case 8 => 6 case 9 => 7 case 10 => 8 case 11 => 14 case 12 => 9 case 13 => 13 case 14 => 11
    case 15 => 10 case 16 => 12 case 17 => 16 case 18 => 15 case 19 => 18 case 20 => 17 case 21 => 21 case 22 => 20
    case _ => 19
  }

  function UnaryRule(t: int): (r: int) {
    match t case 19 => 24 case 20 => 25 case 24 => 23 case _ => 22
  }

  /** The entry of YyTable in the row that starts at p, or -1. */
  function Entry(p: int, t: int): (r: int) {
    if 0 <= p + t <= YYLAST && YyCheck(p + t) == t then YyTable(p + t) else -1
  }

  /** The first operator that binds tighter than op, which is not a product. */
  function Tighter(op: int): (r: int) {
    if op <= 10 then op + 1 else if op <= 12 then 13 else if op <= 16 then 17 else if op <= 18 then 19 else 21
  }

  /** The row after the operand of op shifts the operators from a on. */
  predicate ShiftsFrom(op: int, t: int, a: int) {
    Entry(YyPact(op + 28), t) == if a <= t <= 23 then t + 9 else -1
  }

  lemma LogicRows(op: int, t: int)
    requires IsToken(t) && 6 <= op <= 7
    ensures ShiftsFrom(op, t, Tighter(op))
  {
  }

  lemma MaskRows(op: int, t: int)
    requires IsToken(t) && 8 <= op <= 10
    ensures ShiftsFrom(op, t, Tighter(op))
  {
  }

  lemma OrderRows(op: int, t: int)
    requires IsToken(t) && 11 <= op <= 16
    ensures ShiftsFrom(op, t, Tighter(op))
  {
  }

  lemma SumRows(op: int, t: int)
    requires IsToken(t) && 17 <= op <= 20
    ensures ShiftsFrom(op, t, Tighter(op))
  {
  }

  lemma TopRow(t: int)
    requires IsToken(t)
    ensures Entry(67, t) == if IsBinary(t) then t + 9 else -1
  {
  }

  lemma InsideRow(t: int)
    requires IsToken(t)
    ensures Entry(49, t) == if IsBinary(t) then t + 9 else if t == 5 then 33 else -1
  {
  }

  lemma OperandRow(t: int)
    requires IsToken(t)
    ensures Entry(28, t) == match Begins(t) case Shift(q) => q case _ => -1
  {
  }

  /** Where an operand must come, only what begins one is shifted. */
  lemma ActAwaits(s: int, t: int)
    requires Awaits(s) && IsToken(t)
    ensures Act(s, t) == Begins(t)
  {
    OperandRow(t);
    EntryActs(s, t, Entry(28, t));
  }

  lemma BinaryRows(op: int)
    requires IsBinary(op)
    ensures YyDefact(op + 28) == BinaryRule(op) > 0 && (YyPact(op + 28) == YYPACT_NINF <==> op >= 21)
  {
  }

  lemma EntryActs(s: int, t: int, e: int)
    requires YyPact(s) != YYPACT_NINF && e == Entry(YyPact(s), t) && (e > 0 || e == -1)
    ensures Act(s, t) == if e > 0 then Shift(e) else Default(s)
  {
  }

  lemma BinaryRow(op: int, t: int)
    requires IsToken(t) && 6 <= op <= 20
    ensures ShiftsFrom(op, t, Tighter(op))
  {
    if op <= 7 { LogicRows(op, t); }
    else if op <= 10 { MaskRows(op, t); }
    else if op <= 16 { OrderRows(op, t); }
    else { SumRows(op, t); }
  }

  lemma ActLoose(op: int, t: int)
    requires IsToken(t) && 6 <= op <= 20
    ensures Act(op + 28, t) == if Tighter(op) <= t <= 23 then Shift(t + 9) else Default(op + 28)
  {
    hide Act, Entry, YyTable, YyCheck, YyDefact;
    BinaryRow(op, t);
    BinaryRows(op);
    EntryActs(op + 28, t, Entry(YyPact(op + 28), t));
  }

  lemma Tightest(op: int, t: int)
    requires IsBinary(op) && IsToken(t)
    ensures IsBinary(t) && Level(t) > Level(op) <==> op <= 20 && Tighter(op) <= t <= 23
  {
  }

  /** After the operand of a binary operator, an operator that binds tighter is shifted. */
  lemma ActBinary(op: int, t: int)
    requires IsBinary(op) && IsToken(t)
    ensures Act(op + 28, t) == (if IsBinary(t) && Level(t) > Level(op) then Shift(t + 9) else Reduce(BinaryRule(op)))
  {
    BinaryRows(op);
    Tightest(op, t);
    if op <= 20 { ActLoose(op, t); }
  }

  lemma ActOther(t: int)
    requires IsToken(t)
    ensures Act(1, t) == Reduce(26) && Act(33, t) == Reduce(3)
    ensures Act(8, t) == if IsBinary(t) then Shift(t + 9) else Reduce(2)
    ensures Act(9, t) == if IsBinary(t) then Shift(t + 9) else if t == 5 then Shift(33) else Error
    ensures Act(10, t) == Reduce(24) && Act(11, t) == Reduce(25) && Act(12, t) == Reduce(23) && Act(13, t) == Reduce(22)
  {
    TopRow(t);
    InsideRow(t);
    EntryActs(8, t, Entry(67, t));
    EntryActs(9, t, Entry(49, t));
  }

  // ----- What the tables say, by precedence -----

  /** The states of a run before it ends. */
  predicate IsState(s: int) {
    0 <= s <= 51 && s != 7 && s != 14
  }

  /** What to do in a state: begin an operand, end one, or compare the operator just parsed with the next. */
  function Decide(s: int, t: int): (r: Action) {
    if Awaits(s) then Begins(t)
    else if s == 1 then Reduce(26)
    else if s == 33 then Reduce(3)
    else if s == 8 then (if IsBinary(t) then Shift(t + 9) else Reduce(2))
    else if s == 9 then (if IsBinary(t) then Shift(t + 9) else if t == 5 then Shift(33) else Error)
    else if s <= 13 then Reduce(UnaryRule(UnaryOf(s)))
    else if IsBinary(t) && Level(t) > Level(s - 28) then Shift(t + 9)
    else Reduce(BinaryRule(s - 28))
  }

  /** The unary operator before the operand that ends in state s. */
  function UnaryOf(s: int): (r: int) {
    if s == 10 then 19 else if s == 11 then 20 else s + 12
  }

  /** The state after an operand that was awaited in state s. */
  function Next(s: int): (r: int) {
    if s == 0 then 8 else if s <= 6 then s + 7 else s + 19
  }

  /** The tables decide by precedence and left associativity. */
  lemma TablesDecide(s: int, t: int)
    requires IsState(s) && IsToken(t)
    ensures Act(s, t) == Decide(s, t)
  {
    hide Act;
    if Awaits(s) { ActAwaits(s, t); } else if s < 34 { ActOther(t); } else { ActBinary(s - 28, t); }
  }

  lemma GotoIs(s: int)
    requires Awaits(s)
    ensures Goto(s) == Next(s)
  {
  }
}
