/** The shell's pattern matcher, on unquoted strings. */
module PatMatch {
  import opened Bytes

  /** Characters as the compiler's signed char values; strings contain no 0. */
  type Chars = seq<int>

  const CTLESC := -127
  const CTLQUOTEMARK := -120
  const QUESTION := 63
  const STAR := 42
  const OPEN := 91
  const CLOSE := 93
  const BANG := 33
  const DASH := 45

  // ----- What patterns mean -----

  /** What one character is tested for: a set lists ranges of characters. */
  datatype Test = Lit(c: int) | AnyChar | Set(invert: bool, ranges: seq<(int, int)>)

  datatype Glob = End | One(t: Test, rest: Glob) | Star(rest: Glob)

  predicate InRanges(c: int, rs: seq<(int, int)>) {
    exists i :: 0 <= i < |rs| && rs[i].0 <= c <= rs[i].1
  }

  predicate Accepts(t: Test, c: int) {
    match t
    case Lit(d) => c == d
    case AnyChar => true
    case Set(invert, ranges) => InRanges(c, ranges) != invert
  }

  /** A place in the string, its end included. */
  predicate Place(s: Chars, k: nat) {
    k <= |s|
  }

  /** The string from position j on is in the language of the pattern. */
  ghost predicate Lang(g: Glob, s: Chars, j: nat)
    requires j <= |s|
    decreases g
  {
    match g
    case End => j == |s|
    case One(t, rest) => j < |s| && Accepts(t, s[j]) && Lang(rest, s, j + 1)
    case Star(rest) => exists k: nat {:trigger Place(s, k)} :: j <= k && Place(s, k) && Lang(rest, s, k)
  }

  /** What a star matches is some stretch of the string. */
  lemma StarMeans(g: Glob, s: Chars, j: nat)
    requires j <= |s|
    ensures Lang(Star(g), s, j) <==> exists k: nat {:trigger Place(s, k)} :: j <= k && Place(s, k) && Lang(g, s, k)
  {
  }

  /** Two stars are as good as one. */
  lemma StarStar(g: Glob, s: Chars, j: nat)
    requires j <= |s|
    ensures Lang(Star(Star(g)), s, j) == Lang(Star(g), s, j)
  {
    StarMeans(Star(g), s, j);
    StarMeans(g, s, j);
    assert Place(s, j);
    if Lang(Star(Star(g)), s, j) {
      var k: nat :| j <= k && Place(s, k) && Lang(Star(g), s, k);
      StarMeans(g, s, k);
    }
  }

  /** Behind a star, a literal cannot start before the next place where it occurs. */
  lemma SkipToLiteral(c: int, rest: Glob, s: Chars, j: nat, j': nat)
    requires j <= j' <= |s| && forall k :: j <= k < j' ==> s[k] != c
    ensures Lang(Star(One(Lit(c), rest)), s, j) == Lang(Star(One(Lit(c), rest)), s, j')
  {
    var g := One(Lit(c), rest);
    StarMeans(g, s, j);
    StarMeans(g, s, j');
    forall k: nat | j <= k <= |s| && Lang(g, s, k)
      ensures k >= j'
    {
    }
  }

  // ----- How patterns are written -----

  /** Every escape has a character behind it. */
  predicate WellFormed(p: Chars, i: nat)
    decreases |p| - i
  {
    if i >= |p| then i == |p|
    else if p[i] == CTLESC then i + 1 < |p| && WellFormed(p, i + 2)
    else WellFormed(p, i + 1)
  }

  predicate CString(s: Chars) {
    forall i :: 0 <= i < |s| ==> s[i] != 0
  }

  /** The first place from k on without a quote mark. */
  function SkipMarks(p: Chars, k: nat): (r: nat)
    ensures k <= r && (k <= |p| ==> r <= |p|) && (r < |p| ==> p[r] != CTLQUOTEMARK)
    decreases |p| - k
  {
    if k < |p| && p[k] == CTLQUOTEMARK then SkipMarks(p, k + 1) else k
  }

  /** Where the element that starts at k ends: behind an escaped character, or behind a plain one. */
  function ElementEnd(p: Chars, k: nat): (r: nat)
    ensures r > k
  {
    var e := SkipMarks(p, k);
    if e < |p| && p[e] == CTLESC then e + 2 else e + 1
  }

  lemma {:induction false} MarksFormed(p: Chars, k: nat)
    requires WellFormed(p, k) && k <= |p|
    ensures WellFormed(p, SkipMarks(p, k))
    decreases |p| - k
  {
    if k < |p| && p[k] == CTLQUOTEMARK { MarksFormed(p, k + 1); }
  }

  lemma ElementFormed(p: Chars, k: nat)
    requires WellFormed(p, k) && SkipMarks(p, k) < |p|
    ensures ElementEnd(p, k) <= |p| && WellFormed(p, ElementEnd(p, k))
  {
    MarksFormed(p, k);
  }

  /** The closing bracket of a class with an element at k: the first one right behind an element. One behind a
      quote mark is an element. */
  function ClassEnd(p: Chars, k: nat): (r: Option<nat>)
    ensures r.Some? ==> k < r.value < |p| && p[r.value] == CLOSE
    decreases |p| - k
  {
    if SkipMarks(p, k) >= |p| then None
    else
      var next := ElementEnd(p, k);
      if next < |p| && p[next] == CLOSE then Some(next) else ClassEnd(p, next)
  }

  /** What stands at one place of a class, and where it ends: a range, or a single character, or a quote mark. */
  datatype Item = Item(ranges: seq<(int, int)>, next: nat)

  /** A dash in last place is plain. */
  function ItemAt(p: Chars, i: nat): (r: Item)
    requires i < |p|
    ensures r.next > i
  {
    if p[i] == CTLQUOTEMARK then Item([], i + 1)
    else
      var a := ElementEnd(p, i) - 1;
      if a + 2 < |p| && p[a + 1] == DASH && p[a + 2] != CLOSE then
        var b := ElementEnd(p, a + 2) - 1;
        Item(if b < |p| then [(p[a], p[b])] else [], b + 1)
      else Item(if a < |p| then [(p[a], p[a])] else [], a + 1)
  }

  /** The ranges a class lists from i on. The list ends at the first bracket behind an item, which may be one that
      was taken for an element when the end of the class was looked for. */
  function Ranges(p: Chars, i: nat): (r: seq<(int, int)>)
    decreases |p| - i
  {
    if i >= |p| then []
    else
      var it := ItemAt(p, i);
      it.ranges + (if Char(p, it.next) == CLOSE then [] else Ranges(p, it.next))
  }

  function ListEnd(p: Chars, i: nat): (r: nat)
    ensures r >= i
    decreases |p| - i
  {
    if i >= |p| then i
    else
      var it := ItemAt(p, i);
      if Char(p, it.next) == CLOSE then it.next else ListEnd(p, it.next)
  }

  /** The pattern written from i on. Quote marks mean nothing, and a bracket that is never closed stands for
      itself. */
  function Parse(p: Chars, i: nat): (g: Glob)
    decreases |p| - i
  {
    if i >= |p| then End
    else if p[i] == CTLESC then (if i + 1 < |p| then One(Lit(p[i + 1]), Parse(p, i + 2)) else End)
    else if p[i] == CTLQUOTEMARK then Parse(p, i + 1)
    else if p[i] == QUESTION then One(AnyChar, Parse(p, i + 1))
    else if p[i] == STAR then Star(Parse(p, i + 1))
    else if p[i] == OPEN then
      var invert := i + 1 < |p| && p[i + 1] == BANG;
      var k := if invert then i + 2 else i + 1;
      if ClassEnd(p, k).Some? then One(Set(invert, Ranges(p, k)), Parse(p, ListEnd(p, k) + 1))
      else One(Lit(OPEN), Parse(p, i + 1))
    else One(Lit(p[i]), Parse(p, i + 1))
  }

  // ----- The matcher -----

  /** The character at a cursor; 0 at the end. */
  function Char(s: Chars, i: nat): (r: int) {
    if i < |s| then s[i] else 0
  }

  /** Looks for the closing bracket of a class. */
  method FindClose(p: Chars, k: nat) returns (end: Option<nat>)
    requires CString(p) && k <= |p| && WellFormed(p, k)
    ensures end == ClassEnd(p, k)
  {
    var endp := k;
    while true
      invariant k <= endp <= |p| && WellFormed(p, endp) && ClassEnd(p, endp) == ClassEnd(p, k)
      decreases |p| - endp
    {
      ghost var at := endp;
      while Char(p, endp) == CTLQUOTEMARK
        invariant at <= endp <= |p| && SkipMarks(p, endp) == SkipMarks(p, at)
        decreases |p| - endp
      {
        endp := endp + 1;
      }
      if Char(p, endp) == 0 { return None; }
      ElementFormed(p, at);
      if Char(p, endp) == CTLESC { endp := endp + 1; }
      endp := endp + 1;
      if Char(p, endp) == CLOSE { return Some(endp); }
    }
  }

  /** Behind each element of a class comes its closing bracket or another element. */
  lemma NextElement(p: Chars, i: nat, end: nat)
    requires WellFormed(p, i) && ClassEnd(p, i) == Some(end)
    ensures var next := ElementEnd(p, i);
            && i < next <= end < |p| && WellFormed(p, next) && SkipMarks(p, i) < |p|
            && (p[next] == CLOSE <==> next == end) && (next < end ==> ClassEnd(p, next) == Some(end))
  {
    ElementFormed(p, i);
  }

  /** Behind each item of a class comes a closing bracket or another item. */
  lemma NextItem(p: Chars, i: nat, end: nat)
    requires WellFormed(p, i) && ClassEnd(p, i) == Some(end)
    ensures i < |p| && ItemAt(p, i).next <= end < |p| && WellFormed(p, ItemAt(p, i).next)
    ensures p[ItemAt(p, i).next] != CLOSE ==> ClassEnd(p, ItemAt(p, i).next) == Some(end)
    ensures p[i] != CTLQUOTEMARK ==>
              var a := ElementEnd(p, i) - 1;
              && a + 1 < |p| && (p[a + 1] == DASH ==> a + 2 < |p|)
              && (p[a + 1] == DASH && p[a + 2] != CLOSE ==> SkipMarks(p, a + 2) < |p| && ElementEnd(p, a + 2) < |p|)
  {
    NextElement(p, i, end);
    if p[i] != CTLQUOTEMARK {
      var a := ElementEnd(p, i) - 1;
      if p[a + 1] == DASH {
        NextElement(p, a + 1, end);
        if p[a + 2] != CLOSE { NextElement(p, a + 2, end); }
      }
    }
  }

  /** The range or single character at i: whether it contains a character, and where the next starts. */
  method TryRange(p: Chars, i0: nat, ghost end: nat, chr: int) returns (hit: bool, i: nat)
    requires WellFormed(p, i0) && ClassEnd(p, i0) == Some(end)
    ensures i0 < |p| && i == ItemAt(p, i0).next && (hit <==> InRanges(chr, ItemAt(p, i0).ranges))
  {
    hide ClassEnd;
    NextItem(p, i0, end);
    i := i0;
    var c := Char(p, i);
    i := i + 1;
    if c == CTLQUOTEMARK { return false, i; }
    if c == CTLESC {
      c := Char(p, i);
      i := i + 1;
    }
    if Char(p, i) == DASH && Char(p, i + 1) != CLOSE {
      i := i + 1;
      ghost var at := i;
      while Char(p, i) == CTLQUOTEMARK
        invariant at <= i <= |p| && SkipMarks(p, i) == SkipMarks(p, at)
        decreases |p| - i
      {
        i := i + 1;
      }
      if Char(p, i) == CTLESC { i := i + 1; }
      hit := chr >= c && chr <= Char(p, i);
      OneRange(chr, (c, Char(p, i)));
      i := i + 1;
    } else {
      hit := chr == c;
      OneRange(chr, (c, c));
    }
  }

  lemma OneRange(chr: int, r: (int, int))
    ensures InRanges(chr, [r]) <==> r.0 <= chr <= r.1
  {
    assert [r][0] == r;
  }

  /** Whether a character is in a class whose items start at k. */
  method InClass(p: Chars, k: nat, ghost end: nat, chr: int) returns (found: bool, next: nat)
    requires WellFormed(p, k) && ClassEnd(p, k) == Some(end)
    ensures next == ListEnd(p, k) + 1 && found == InRanges(chr, Ranges(p, k))
    ensures next <= |p| && WellFormed(p, next)
  {
    hide InRanges, Ranges, ListEnd, ItemAt, ClassEnd, WellFormed, ElementEnd, SkipMarks;
    found := false;
    var i := k;
    while true
      invariant k <= i < |p| && WellFormed(p, i) && ClassEnd(p, i) == Some(end) && ListEnd(p, i) == ListEnd(p, k)
      invariant InRanges(chr, Ranges(p, k)) == (found || InRanges(chr, Ranges(p, i)))
      decreases end - i
    {
      NextItem(p, i, end);
      ItemListed(p, i, chr);
      var hit;
      hit, i := TryRange(p, i, end, chr);
      if hit { found := true; }
      if Char(p, i) == CLOSE { return found, i + 1; }
    }
  }

  /** What an item contributes to a class. */
  lemma ItemListed(p: Chars, i: nat, chr: int)
    requires i < |p|
    ensures var it := ItemAt(p, i);
            && (InRanges(chr, Ranges(p, i))
                <==> InRanges(chr, it.ranges) || (Char(p, it.next) != CLOSE && InRanges(chr, Ranges(p, it.next))))
            && ListEnd(p, i) == if Char(p, it.next) == CLOSE then it.next else ListEnd(p, it.next)
  {
    hide ItemAt, InRanges;
    var it := ItemAt(p, i);
    RangesJoin(chr, it.ranges, if Char(p, it.next) == CLOSE then [] else Ranges(p, it.next));
  }

  lemma RangesJoin(chr: int, a: seq<(int, int)>, b: seq<(int, int)>)
    ensures InRanges(chr, a + b) == (InRanges(chr, a) || InRanges(chr, b)) && !InRanges(chr, [])
  {
    var all := a + b;
    if InRanges(chr, a) {
      var i :| 0 <= i < |a| && a[i].0 <= chr <= a[i].1;
      assert all[i].0 <= chr <= all[i].1;
    }
    if InRanges(chr, b) {
      var i :| 0 <= i < |b| && b[i].0 <= chr <= b[i].1;
      assert all[|a| + i].0 <= chr <= all[|a| + i].1;
    }
    if InRanges(chr, all) {
      var i :| 0 <= i < |all| && all[i].0 <= chr <= all[i].1;
      if i < |a| { assert a[i].0 <= chr <= a[i].1; } else { assert b[i - |a|].0 <= chr <= b[i - |a|].1; }
    }
  }

  /** Whether the pattern from i0 on matches the string from j0 on. */
  method PMatch(p: Chars, i0: nat, s: Chars, j0: nat) returns (r: bool)
    requires CString(p) && CString(s) && i0 <= |p| && j0 <= |s| && WellFormed(p, i0)
    ensures r == Lang(Parse(p, i0), s, j0)
    decreases |p| - i0, 0
  {
    hide Ranges, ListEnd, ClassEnd;
    var i, j := i0, j0;
    while true
      invariant i0 <= i <= |p| && j0 <= j <= |s| && WellFormed(p, i)
      invariant Lang(Parse(p, i), s, j) == Lang(Parse(p, i0), s, j0)
      decreases |p| - i
    {
      var c := Char(p, i);
      if c == 0 { return Char(s, j) == 0; }
      i := i + 1;
      if c == CTLESC {
        if Char(s, j) != Char(p, i) { return false; }
        i, j := i + 1, j + 1;
      } else if c == CTLQUOTEMARK {
        continue;
      } else if c == QUESTION {
        if Char(s, j) == 0 { return false; }
        j := j + 1;
      } else if c == STAR {
        r := MatchStar(p, i, s, j);
        return;
      } else if c == OPEN {
        var k := if Char(p, i) == BANG then i + 1 else i;
        var end := FindClose(p, k);
        if end.Some? {
          if Char(s, j) == 0 { return false; }
          var found, next := InClass(p, k, end.value, Char(s, j));
          if found == (k > i) { return false; }
          i, j := next, j + 1;
        } else {
          if Char(s, j) != c { return false; }
          j := j + 1;
        }
      } else {
        if Char(s, j) != c { return false; }
        j := j + 1;
      }
    }
  }

  /** Matches what is behind a star, at every place where it could start. */
  method MatchStar(p: Chars, i0: nat, s: Chars, j0: nat) returns (r: bool)
    requires CString(p) && CString(s) && 0 < i0 <= |p| && j0 <= |s| && WellFormed(p, i0)
    ensures r == Lang(Star(Parse(p, i0)), s, j0)
    decreases |p| - i0, 1
  {
    var i, j := i0, j0;
    while Char(p, i) == CTLQUOTEMARK || Char(p, i) == STAR
      invariant i0 <= i <= |p| && WellFormed(p, i)
      invariant Lang(Star(Parse(p, i)), s, j) == Lang(Star(Parse(p, i0)), s, j0)
      decreases |p| - i
    {
      if Char(p, i) == STAR { StarStar(Parse(p, i + 1), s, j); }
      i := i + 1;
    }
    var c := Char(p, i);
    ghost var goal := Lang(Star(Parse(p, i0)), s, j0);
    if c != CTLESC && c != CTLQUOTEMARK && c != QUESTION && c != STAR && c != OPEN {
      while Char(s, j) != c
        invariant j0 <= j <= |s| && forall k :: j0 <= k < j ==> s[k] != c
        decreases |s| - j
      {
        if Char(s, j) == 0 {
          SkipToLiteral(c, Parse(p, i + 1), s, j0, j);
          StarMeans(Parse(p, i), s, j);
          return false;
        }
        j := j + 1;
      }
      if c != 0 { SkipToLiteral(c, Parse(p, i + 1), s, j0, j); } else { EndMatches(s, j0); EndMatches(s, j); }
    }
    assert Lang(Star(Parse(p, i)), s, j) == goal;
    StarMeans(Parse(p, i), s, j);
    ghost var start := j;
    while true
      invariant start <= j <= |s| && forall k: nat :: start <= k < j ==> !Lang(Parse(p, i), s, k)
      decreases |s| - j
    {
      assert Place(s, j);
      var here := PMatch(p, i, s, j);
      if here { return true; }
      if Char(s, j) == 0 { return false; }
      j := j + 1;
    }
  }

  lemma EndMatches(s: Chars, j: nat)
    requires j <= |s|
    ensures Lang(Star(End), s, j)
  {
    assert Place(s, |s|) && Lang(End, s, |s|);
    StarMeans(End, s, j);
  }

  /** A class with a quoted character is none: its bracket is behind a quote mark, and is not found. */
  lemma QuotedClassLost(c: int)
    requires c !in {CTLESC, CTLQUOTEMARK, QUESTION, STAR, OPEN, CLOSE, BANG}
    ensures var p := [OPEN, CTLQUOTEMARK, c, CTLQUOTEMARK, CLOSE];
            Parse(p, 0) == One(Lit(OPEN), One(Lit(c), One(Lit(CLOSE), End)))
  {
    var p := [OPEN, CTLQUOTEMARK, c, CTLQUOTEMARK, CLOSE];
    assert SkipMarks(p, 1) == SkipMarks(p, 2) == 2 && ElementEnd(p, 1) == 3;
    assert SkipMarks(p, 3) == SkipMarks(p, 4) == 4 && ElementEnd(p, 3) == 5;
    assert ClassEnd(p, 5) == None;
    assert ClassEnd(p, 3) == None;
    assert ClassEnd(p, 1) == None;
    assert Parse(p, 5) == End;
    assert Parse(p, 3) == Parse(p, 4) == One(Lit(CLOSE), End);
    assert Parse(p, 1) == Parse(p, 2) == One(Lit(c), Parse(p, 3));
  }
}
