/** What written patterns match, character by character. */
module PatLaws {
  import opened Bytes
  import opened PatMatch

  /** The rest of a pattern means the same whatever stands before it. */
  lemma {:induction false} MarksBehind(x: Chars, q: Chars, i: nat)
    requires i <= |q|
    ensures SkipMarks(x + q, |x| + i) == |x| + SkipMarks(q, i)
    decreases |q| - i
  {
    if i < |q| && q[i] == CTLQUOTEMARK {
      assert (x + q)[|x| + i] == q[i];
      MarksBehind(x, q, i + 1);
    }
  }

  lemma ElementBehind(x: Chars, q: Chars, i: nat)
    requires i <= |q|
    ensures ElementEnd(x + q, |x| + i) == |x| + ElementEnd(q, i)
  {
    MarksBehind(x, q, i);
  }

  function Moved(r: Option<nat>, n: nat): (m: Option<nat>) {
    if r.None? then None else Some(r.value + n)
  }

  lemma {:induction false} EndBehind(x: Chars, q: Chars, i: nat)
    requires i <= |q|
    ensures ClassEnd(x + q, |x| + i) == Moved(ClassEnd(q, i), |x|)
    decreases |q| - i
  {
    MarksBehind(x, q, i);
    ElementBehind(x, q, i);
    var next := ElementEnd(q, i);
    if SkipMarks(q, i) < |q| {
      if next <= |q| {
        EndBehind(x, q, next);
      } else {
        BeyondEnd(q, next);
        BeyondEnd(x + q, |x| + next);
      }
    }
  }

  lemma BeyondEnd(q: Chars, i: nat)
    requires i >= |q|
    ensures ClassEnd(q, i) == None
  {
  }

  lemma ItemBehind(x: Chars, q: Chars, i: nat)
    requires i < |q|
    ensures var it, at := ItemAt(q, i), ItemAt(x + q, |x| + i);
            at.ranges == it.ranges && at.next == |x| + it.next && Char(x + q, at.next) == Char(q, it.next)
  {
    ElementBehind(x, q, i);
    var a := ElementEnd(q, i) - 1;
    if a + 2 < |q| { ElementBehind(x, q, a + 2); }
  }

  lemma ListNext(q: Chars, i: nat)
    requires i < |q|
    ensures var it := ItemAt(q, i); var last := Char(q, it.next) == CLOSE;
            && Ranges(q, i) == it.ranges + (if last then [] else Ranges(q, it.next))
            && ListEnd(q, i) == if last then it.next else ListEnd(q, it.next)
  {
  }

  lemma {:induction false} ListBehind(x: Chars, q: Chars, i: nat)
    ensures Ranges(x + q, |x| + i) == Ranges(q, i) && ListEnd(x + q, |x| + i) == |x| + ListEnd(q, i)
    decreases |q| - i
  {
    hide Ranges, ListEnd, ItemAt;
    var p := x + q;
    if i < |q| {
      ListNext(q, i);
      ListNext(p, |x| + i);
      ItemBehind(x, q, i);
      var it, at := ItemAt(q, i), ItemAt(p, |x| + i);
      assert at.next == |x| + it.next && at.ranges == it.ranges;
      ListBehind(x, q, it.next);
    } else {
      ListOver(q, i);
      ListOver(p, |x| + i);
    }
  }

  lemma ListOver(q: Chars, i: nat)
    requires i >= |q|
    ensures Ranges(q, i) == [] && ListEnd(q, i) == i
  {
  }

  lemma {:induction false} ParseBehind(x: Chars, q: Chars, i: nat)
    ensures Parse(x + q, |x| + i) == Parse(q, i)
    decreases |q| - i
  {
    hide ClassEnd, Ranges, ListEnd;
    if i < |q| {
      ParseBehind(x, q, i + 1);
      if i + 1 < |q| { ParseBehind(x, q, i + 2); }
      var k := if i + 1 < |q| && q[i + 1] == BANG then i + 2 else i + 1;
      EndBehind(x, q, k);
      ListBehind(x, q, k);
      ParseBehind(x, q, ListEnd(q, k) + 1);
    }
  }

  /** What comes behind the class at the front of a pattern. */
  function Behind(q: Chars): (r: Chars) {
    if ListEnd(q, 0) + 1 <= |q| then q[ListEnd(q, 0) + 1..] else []
  }

  /** A character is in one of the ranges that the class lists. */
  ghost predicate InList(q: Chars, c: int) {
    exists k :: 0 <= k < |Ranges(q, 0)| && Ranges(q, 0)[k].0 <= c && c <= Ranges(q, 0)[k].1
  }

  ghost predicate Matches(p: Chars, s: Chars) {
    Lang(Parse(p, 0), s, 0)
  }

  lemma {:induction false} LangBehind(g: Glob, x: Chars, s: Chars, j: nat)
    requires j <= |s|
    ensures Lang(g, x + s, |x| + j) == Lang(g, s, j)
    decreases g
  {
    match g
    case End =>
    case One(t, rest) => if j < |s| { LangBehind(rest, x, s, j + 1); }
    case Star(rest) =>
      StarMeans(rest, s, j);
      StarMeans(rest, x + s, |x| + j);
      forall k: nat | j <= k <= |s|
        ensures Lang(rest, x + s, |x| + k) == Lang(rest, s, k)
      {
        LangBehind(rest, x, s, k);
      }
      if Lang(g, x + s, |x| + j) {
        var k: nat :| |x| + j <= k && Place(x + s, k) && Lang(rest, x + s, k);
        assert Place(s, k - |x|);
        assert Lang(rest, x + s, |x| + (k - |x|)) == Lang(rest, s, k - |x|);
      }
      if Lang(g, s, j) {
        var k: nat :| j <= k && Place(s, k) && Lang(rest, s, k);
        assert Place(x + s, |x| + k);
      }
  }

  /** A pattern whose first sign stands for one character matches what begins with such a character and goes on as the
      rest of the pattern says. */
  lemma OneThenRest(t: Test, q: Chars, s: Chars)
    ensures Lang(One(t, Parse(q, 0)), s, 0) <==> s != [] && Accepts(t, s[0]) && Matches(q, s[1..])
  {
    if s != [] {
      assert [s[0]] + s[1..] == s;
      LangBehind(Parse(q, 0), [s[0]], s[1..], 0);
    }
  }

  // ----- Signs -----

  predicate Plain(c: int) {
    c !in {CTLESC, CTLQUOTEMARK, QUESTION, STAR, OPEN}
  }

  /** What each sign of a pattern matches: the end of a pattern the end of a string, a plain or escaped character
      itself, ? any one character, and * anything. */
  lemma SignsMatch(c: int, q: Chars, s: Chars)
    ensures Matches([], s) <==> s == []
    ensures Plain(c) ==> (Matches([c] + q, s) <==> s != [] && s[0] == c && Matches(q, s[1..]))
    ensures Matches([CTLESC, c] + q, s) <==> s != [] && s[0] == c && Matches(q, s[1..])
    ensures Matches([QUESTION] + q, s) <==> s != [] && Matches(q, s[1..])
    ensures Matches([CTLQUOTEMARK] + q, s) <==> Matches(q, s)
    ensures Matches([STAR] + q, s) <==> exists k {:trigger s[k..]} :: 0 <= k <= |s| && Matches(q, s[k..])
  {
    ParseBehind([c], q, 0);
    ParseBehind([CTLESC, c], q, 0);
    ParseBehind([QUESTION], q, 0);
    ParseBehind([CTLQUOTEMARK], q, 0);
    OneThenRest(Lit(c), q, s);
    OneThenRest(AnyChar, q, s);
    StarMatches(q, s);
  }

  lemma StarMatches(q: Chars, s: Chars)
    ensures Matches([STAR] + q, s) <==> exists k {:trigger s[k..]} :: 0 <= k <= |s| && Matches(q, s[k..])
  {
    ParseBehind([STAR], q, 0);
    var g := Parse(q, 0);
    StarMeans(g, s, 0);
    forall k: nat | k <= |s|
      ensures Lang(g, s, k) <==> Matches(q, s[k..])
    {
      assert s[..k] + s[k..] == s;
      LangBehind(g, s[..k], s[k..], 0);
    }
    if Lang(Star(g), s, 0) {
      var k: nat :| 0 <= k && Place(s, k) && Lang(g, s, k);
      assert Matches(q, s[k..]);
    }
    if k :| 0 <= k <= |s| && Matches(q, s[k..]) { assert Place(s, k); }
  }

  // ----- Classes -----

  /** [..] matches one character that its list holds, [!..] with the same list one that it does not hold; both go on
      in the same way. */
  lemma ClassMatches(q: Chars, s: Chars)
    requires q != [] && q[0] != BANG && ClassEnd(q, 0).Some? && ListEnd(q, 0) < |q|
    ensures Matches([OPEN] + q, s) <==> s != [] && InList(q, s[0]) && Matches(Behind(q), s[1..])
    ensures Matches([OPEN, BANG] + q, s) <==> s != [] && !InList(q, s[0]) && Matches(Behind(q), s[1..])
  {
    hide ClassEnd, Ranges, ListEnd, Parse;
    var n, rs := ListEnd(q, 0) + 1, Ranges(q, 0);
    assert q[..n] + q[n..] == q;
    ParseBehind(q[..n], q[n..], 0);
    ClassParsed([OPEN], q, false);
    ClassParsed([OPEN, BANG], q, true);
    OneThenRest(Set(false, rs), q[n..], s);
    OneThenRest(Set(true, rs), q[n..], s);
  }

  lemma ClassParsed(x: Chars, q: Chars, invert: bool)
    requires q != [] && q[0] != BANG && ClassEnd(q, 0).Some? && x == if invert then [OPEN, BANG] else [OPEN]
    ensures Parse(x + q, 0) == One(Set(invert, Ranges(q, 0)), Parse(q, ListEnd(q, 0) + 1))
  {
    hide ClassEnd, Ranges, ListEnd;
    EndBehind(x, q, 0);
    ListBehind(x, q, 0);
    ParseBehind(x, q, ListEnd(q, 0) + 1);
  }

  // ----- Lists of plain characters and ranges -----

  /** A character that stands for itself in a list. */
  predicate Ordinary(c: int) {
    c !in {0, CTLESC, CTLQUOTEMARK, CLOSE, DASH, BANG}
  }

  /** How one item is written. */
  function Sign(it: (int, int)): (r: Chars)
    ensures |r| > 0 && r[0] == it.0
  {
    if it.0 == it.1 then [it.0] else [it.0, DASH, it.1]
  }

  /** A list as it is written: a character alone, or two with a dash between them. */
  function Written(items: seq<(int, int)>): (r: Chars) {
    if items == [] then []
    else Sign(items[0]) + Written(items[1..])
  }

  lemma WrittenNext(items: seq<(int, int)>, rest: Chars)
    requires items != []
    ensures |Written(items)| == |Sign(items[0])| + |Written(items[1..])|
    ensures Written(items) + [CLOSE] + rest == Sign(items[0]) + (Written(items[1..]) + [CLOSE] + rest)
  {
  }

  /** A written list is read as it was meant, up to its bracket. */
  lemma {:induction false} WrittenRead(items: seq<(int, int)>, rest: Chars)
    requires items != [] && forall k :: 0 <= k < |items| ==> Ordinary(items[k].0) && Ordinary(items[k].1)
    ensures var q := Written(items) + [CLOSE] + rest;
            && Ranges(q, 0) == items && ListEnd(q, 0) == |Written(items)| && ClassEnd(q, 0).Some?
            && q[0] == items[0].0 && q[|Written(items)|] == CLOSE
  {
    hide Ranges, ListEnd, ClassEnd, Sign;
    WrittenNext(items, rest);
    var tail := Written(items[1..]) + [CLOSE] + rest;
    if |items| == 1 {
      assert Written(items[1..]) == [] && tail[0] == CLOSE && items == [items[0]];
    } else {
      WrittenRead(items[1..], rest);
      assert items == [items[0]] + items[1..];
    }
    ItemThen(items[0], tail);
  }

  /** One item in front of more, or of the bracket. */
  lemma ItemThen(first: (int, int), tail: Chars)
    requires Ordinary(first.0) && Ordinary(first.1) && tail != []
    requires tail[0] == CLOSE || (tail[0] != DASH && ClassEnd(tail, 0).Some?)
    ensures var q := Sign(first) + tail;
            && ClassEnd(q, 0).Some?
            && Ranges(q, 0) == [first] + (if tail[0] == CLOSE then [] else Ranges(tail, 0))
            && ListEnd(q, 0) == |Sign(first)| + (if tail[0] == CLOSE then 0 else ListEnd(tail, 0))
  {
    hide ItemAt, Ordinary, ClassEnd;
    var x := Sign(first);
    FirstItem(first, tail);
    if tail[0] == CLOSE {
      ElementsClose(x, tail);
    } else {
      ListBehind(x, tail, 0);
      EndBehind(x, tail, 0);
      ElementsEnd(x, tail);
    }
  }

  lemma FirstItem(first: (int, int), tail: Chars)
    requires Ordinary(first.0) && Ordinary(first.1) && tail != [] && tail[0] != DASH
    ensures ItemAt(Sign(first) + tail, 0) == Item([first], |Sign(first)|)
  {
    var x := Sign(first);
    var q := x + tail;
    assert SkipMarks(q, 0) == 0;
    if |x| == 3 { assert SkipMarks(q, 2) == 2; }
  }

  predicate Elements(x: Chars) {
    (|x| == 1 && Ordinary(x[0])) || (|x| == 3 && Ordinary(x[0]) && x[1] == DASH && Ordinary(x[2]))
  }

  lemma ElementsClose(x: Chars, tail: Chars)
    requires Elements(x) && tail != [] && tail[0] == CLOSE
    ensures ClassEnd(x + tail, 0).Some?
  {
    var q := x + tail;
    assert SkipMarks(q, 0) == 0;
    if |x| == 3 {
      assert SkipMarks(q, 1) == 1 && SkipMarks(q, 2) == 2;
      assert ClassEnd(q, 0) == ClassEnd(q, 1) == ClassEnd(q, 2);
    }
  }

  lemma ElementsEnd(x: Chars, tail: Chars)
    requires Elements(x) && tail != [] && tail[0] != CLOSE
    ensures ClassEnd(x + tail, 0) == ClassEnd(x + tail, |x|)
  {
    var q := x + tail;
    assert SkipMarks(q, 0) == 0;
    if |x| == 3 {
      assert SkipMarks(q, 1) == 1 && SkipMarks(q, 2) == 2;
      assert ClassEnd(q, 0) == ClassEnd(q, 1) == ClassEnd(q, 2);
    }
  }

  /** A class of plain characters and ranges matches one character that is or lies between them, and with ! one that is
      not and does not. */
  lemma WrittenClass(items: seq<(int, int)>, rest: Chars, s: Chars)
    requires items != [] && forall k :: 0 <= k < |items| ==> Ordinary(items[k].0) && Ordinary(items[k].1)
    ensures Matches([OPEN] + (Written(items) + [CLOSE] + rest), s)
            <==> s != [] && (exists k :: 0 <= k < |items| && items[k].0 <= s[0] && s[0] <= items[k].1)
                 && Matches(rest, s[1..])
    ensures Matches([OPEN, BANG] + (Written(items) + [CLOSE] + rest), s)
            <==> s != [] && (forall k :: 0 <= k < |items| ==> s[0] < items[k].0 || items[k].1 < s[0])
                 && Matches(rest, s[1..])
  {
    hide Matches;
    var q := Written(items) + [CLOSE] + rest;
    WrittenRead(items, rest);
    ClassMatches(q, s);
    assert Behind(q) == rest;
  }
}
