/** The stack of memory blocks that the shell allocates from, and the marks in it. */
module Memalloc {
  import opened Bytes

  const MINSIZE := 504
  const ALIGNMENT := 8
  const BASE := 0

  /** SHELL_ALIGN. */
  function Align(n: nat): (r: nat)
    ensures r >= n && r % ALIGNMENT == 0 && r < n + ALIGNMENT
  {
    (n + ALIGNMENT - 1) / ALIGNMENT * ALIGNMENT
  }

  lemma AlignLeast(n: nat, m: nat)
    requires n <= m && m % ALIGNMENT == 0
    ensures Align(n) <= m
  {
  }

  /** A block from malloc; prev is the block below. */
  datatype Block = Block(prev: nat, space: seq<Byte>)

  datatype Mark = Mark(stackp: nat, stacknxt: nat, stacknleft: nat)

  /** What was so when a mark was set: the number of blocks below, the mark, and the bytes below it. */
  datatype Saved = Saved(level: nat, mark: Mark, below: seq<seq<Byte>>)

  // ----- The chain of blocks -----

  /** The blocks from the base up, and what they hold: the heap has these blocks and no others. */
  ghost predicate Chained(heap: map<nat, Block>, chain: seq<nat>, spaces: seq<seq<Byte>>) {
    && |chain| == |spaces| > 0 && chain[0] == BASE
    && (forall k :: 0 <= k < |chain| ==> chain[k] in heap && heap[chain[k]].space == spaces[k])
    && (forall k :: 0 < k < |chain| ==> heap[chain[k]].prev == chain[k - 1])
    && (forall i, j :: 0 <= i < j < |chain| ==> chain[i] != chain[j])
    && (forall id :: id in heap ==> id in chain)
  }

  /** The bytes up to position nxt of block level. */
  function Below(spaces: seq<seq<Byte>>, level: nat, nxt: nat): (r: seq<seq<Byte>>)
    requires level < |spaces| && nxt <= |spaces[level]|
  {
    spaces[..level] + [spaces[level][..nxt]]
  }

  /** A mark is right: it names its block and what is left there, and the bytes below it are as they
      were. Only its block may have moved since, and then it is at the start of it. */
  ghost predicate MarkRight(chain: seq<nat>, spaces: seq<seq<Byte>>, m: Mark, s: Saved) {
    && |chain| == |spaces| && s.level < |chain| && m.stackp == chain[s.level]
    && m.stacknxt + m.stacknleft == |spaces[s.level]| && m.stacknxt % ALIGNMENT == 0
    && s.below == Below(spaces, s.level, m.stacknxt)
    && m.stacknxt == s.mark.stacknxt && (m == s.mark || (m.stacknxt == 0 && s.level > 0))
  }

  /** A place is not above another. */
  predicate NotAbove(level: nat, nxt: nat, level': nat, nxt': nat) {
    level < level' || (level == level' && nxt <= nxt')
  }

  /** All marks are right, later ones are not below earlier ones, and none is above the top. */
  ghost predicate MarksRight(chain: seq<nat>, spaces: seq<seq<Byte>>, marks: seq<Mark>, saved: seq<Saved>, nxt: nat) {
    && |marks| == |saved| && |chain| > 0
    && (forall k {:trigger saved[k]} :: 0 <= k < |marks| ==> MarkRight(chain, spaces, marks[k], saved[k]))
    && (forall i, j {:trigger saved[i], saved[j]} :: 0 <= i < j < |marks| ==>
          NotAbove(saved[i].level, marks[i].stacknxt, saved[j].level, marks[j].stacknxt))
    && (forall k {:trigger saved[k]} :: 0 <= k < |marks| ==>
          NotAbove(saved[k].level, marks[k].stacknxt, |chain| - 1, nxt))
  }

  /** The sizes fit: all of the top block is either allocated or left. */
  ghost predicate TopRight(spaces: seq<seq<Byte>>, nxt: nat, nleft: nat) {
    && |spaces| > 0 && nxt + nleft == |spaces[|spaces| - 1]| && nxt % ALIGNMENT == 0
    && forall k :: 0 <= k < |spaces| ==> |spaces[k]| % ALIGNMENT == 0
  }

  // ----- What each change keeps -----

  /** A new block on top. */
  lemma PushKeeps(heap: map<nat, Block>, chain: seq<nat>, spaces: seq<seq<Byte>>, id: nat, space: seq<Byte>)
    requires Chained(heap, chain, spaces) && id !in heap
    ensures Chained(heap[id := Block(chain[|chain| - 1], space)], chain + [id], spaces + [space])
  {
  }

  lemma BelowKept(spaces: seq<seq<Byte>>, spaces': seq<seq<Byte>>, level: nat, nxt: nat)
    requires level < |spaces| && level < |spaces'| && nxt <= |spaces[level]| && nxt <= |spaces'[level]|
    requires spaces[..level] == spaces'[..level] && spaces[level][..nxt] == spaces'[level][..nxt]
    ensures Below(spaces, level, nxt) == Below(spaces', level, nxt)
  {
  }

  lemma PushKeepsMarks(chain: seq<nat>, spaces: seq<seq<Byte>>, marks: seq<Mark>, saved: seq<Saved>, nxt: nat, id: nat,
                       space: seq<Byte>)
    requires MarksRight(chain, spaces, marks, saved, nxt)
    requires |chain| == |spaces|
    ensures MarksRight(chain + [id], spaces + [space], marks, saved, 0)
  {
    forall k {:trigger saved[k]} | 0 <= k < |marks|
      ensures MarkRight(chain + [id], spaces + [space], marks[k], saved[k])
    {
      BelowKept(spaces, spaces + [space], saved[k].level, marks[k].stacknxt);
    }
  }

  /** The block on top is freed. */
  lemma PopKeeps(heap: map<nat, Block>, chain: seq<nat>, spaces: seq<seq<Byte>>)
    requires Chained(heap, chain, spaces) && |chain| > 1
    ensures var top := |chain| - 1; Chained(heap - {chain[top]}, chain[..top], spaces[..top])
  {
    var top := |chain| - 1;
    forall id | id in heap - {chain[top]}
      ensures id in chain[..top]
    {
      var k :| 0 <= k < |chain| && chain[k] == id;
      assert chain[..top][k] == id;
    }
  }

  /** The marks up to k, when the stack is cut back to mark k. */
  lemma CutKeepsMarks(chain: seq<nat>, spaces: seq<seq<Byte>>, marks: seq<Mark>, saved: seq<Saved>, nxt: nat, k: nat)
    requires MarksRight(chain, spaces, marks, saved, nxt) && k < |marks| && |chain| == |spaces|
    ensures var level := saved[k].level;
            && level < |chain|
            && MarksRight(chain[..level + 1], spaces[..level + 1], marks[..k], saved[..k], marks[k].stacknxt)
            && Below(spaces[..level + 1], level, marks[k].stacknxt) == saved[k].below
  {
    var level := saved[k].level;
    var chain', spaces' := chain[..level + 1], spaces[..level + 1];
    assert MarkRight(chain, spaces, marks[k], saved[k]);
    BelowKept(spaces, spaces', level, marks[k].stacknxt);
    forall i {:trigger saved[i]} | 0 <= i < k
      ensures MarkRight(chain', spaces', marks[i], saved[i])
              && NotAbove(saved[i].level, marks[i].stacknxt, level, marks[k].stacknxt)
    {
      assert MarkRight(chain, spaces, marks[i], saved[i]);
      assert NotAbove(saved[i].level, marks[i].stacknxt, saved[k].level, marks[k].stacknxt);
      BelowKept(spaces, spaces', saved[i].level, marks[i].stacknxt);
    }
  }

  /** The block on top holds other bytes above nxt. */
  lemma WriteKeeps(heap: map<nat, Block>, chain: seq<nat>, spaces: seq<seq<Byte>>, space: seq<Byte>)
    requires Chained(heap, chain, spaces)
    ensures var top := |chain| - 1;
            Chained(heap[chain[top] := heap[chain[top]].(space := space)], chain, spaces[top := space])
  {
  }

  lemma WriteKeepsMarks(chain: seq<nat>, spaces: seq<seq<Byte>>, marks: seq<Mark>, saved: seq<Saved>, nxt: nat,
                        space: seq<Byte>)
    requires MarksRight(chain, spaces, marks, saved, nxt) && |chain| == |spaces|
    requires |space| == |spaces[|spaces| - 1]| && nxt <= |space| && space[..nxt] == spaces[|spaces| - 1][..nxt]
    ensures MarksRight(chain, spaces[|spaces| - 1 := space], marks, saved, nxt)
  {
    var spaces' := spaces[|spaces| - 1 := space];
    forall k {:trigger saved[k]} | 0 <= k < |marks|
      ensures MarkRight(chain, spaces', marks[k], saved[k])
    {
      var level, n := saved[k].level, marks[k].stacknxt;
      assert MarkRight(chain, spaces, marks[k], saved[k]) && NotAbove(level, n, |chain| - 1, nxt);
      assert level == |chain| - 1 ==>
          space[..n] == space[..nxt][..n] && spaces[level][..n] == spaces[level][..nxt][..n];
      BelowKept(spaces, spaces', level, n);
    }
  }

  lemma TopKeepsMarks(chain: seq<nat>, spaces: seq<seq<Byte>>, marks: seq<Mark>, saved: seq<Saved>, nxt: nat, nxt': nat)
    requires MarksRight(chain, spaces, marks, saved, nxt)
    requires forall k {:trigger saved[k]} :: 0 <= k < |marks| ==>
               NotAbove(saved[k].level, marks[k].stacknxt, |chain| - 1, nxt')
    ensures MarksRight(chain, spaces, marks, saved, nxt')
  {
  }

  // ----- Moving the block on top -----

  /** A mark after the block on top has moved to id, with len bytes. */
  function Moved(m: Mark, from: nat, id: nat, len: nat): (r: Mark) {
    if m.stackp == from then Mark(id, 0, len) else m
  }

  function MovedFrom(marks: seq<Mark>, k: nat, from: nat, id: nat, len: nat): (r: seq<Mark>)
    requires k <= |marks|
    ensures |r| == |marks|
  {
    seq(|marks|, i requires 0 <= i < |marks| => if i < k then marks[i] else Moved(marks[i], from, id, len))
  }

  /** The marks in the block on top come last, so the loop may stop at the first in another block. */
  lemma MarksOnTop(chain: seq<nat>, spaces: seq<seq<Byte>>, marks: seq<Mark>, saved: seq<Saved>, nxt: nat, k: nat)
    requires MarksRight(chain, spaces, marks, saved, nxt) && k < |marks| && |chain| == |spaces|
    requires forall i, j :: 0 <= i < j < |chain| ==> chain[i] != chain[j]
    requires marks[k].stackp != chain[|chain| - 1]
    ensures forall i :: 0 <= i <= k ==> marks[i].stackp != chain[|chain| - 1]
  {
    assert MarkRight(chain, spaces, marks[k], saved[k]);
    forall i | 0 <= i < k
      ensures marks[i].stackp != chain[|chain| - 1]
    {
      assert MarkRight(chain, spaces, marks[i], saved[i]);
      assert NotAbove(saved[i].level, marks[i].stacknxt, saved[k].level, marks[k].stacknxt);
    }
  }

  /** The marks from k on are in the block from, the others are not. */
  ghost predicate SplitAt(marks: seq<Mark>, from: nat) {
    forall i, j :: 0 <= i < j < |marks| && marks[i].stackp == from ==> marks[j].stackp == from
  }

  /** The loop over the marks, from the last one back while they are in the block that moved. */
  method RelocateMarks(marks: seq<Mark>, from: nat, to: nat, len: nat) returns (r: seq<Mark>)
    requires SplitAt(marks, from)
    ensures r == MovedFrom(marks, 0, from, to, len)
  {
    r := marks;
    var k := |marks|;
    while k > 0 && r[k - 1].stackp == from
      invariant 0 <= k <= |marks| && r == MovedFrom(marks, k, from, to, len)
    {
      k := k - 1;
      r := r[k := Mark(to, 0, len)];
    }
    assert forall i :: 0 <= i < k ==> marks[i].stackp != from;
  }

  /** The block on top, nothing of which is allocated, moves and grows; the marks in it move with it. */
  lemma MoveKeepsMarks(chain: seq<nat>, spaces: seq<seq<Byte>>, marks: seq<Mark>, saved: seq<Saved>, id: nat,
                       space: seq<Byte>)
    requires MarksRight(chain, spaces, marks, saved, 0) && |chain| == |spaces| > 1
    requires forall i, j :: 0 <= i < j < |chain| ==> chain[i] != chain[j]
    ensures var top := |chain| - 1;
            MarksRight(chain[top := id], spaces[top := space], MovedFrom(marks, 0, chain[top], id, |space|), saved, 0)
  {
    var top := |chain| - 1;
    var chain', spaces', marks' := chain[top := id], spaces[top := space], MovedFrom(marks, 0, chain[top], id, |space|);
    forall k {:trigger saved[k]} | 0 <= k < |marks|
      ensures MarkRight(chain', spaces', marks'[k], saved[k]) && marks'[k].stacknxt == marks[k].stacknxt
    {
      var level, n := saved[k].level, marks[k].stacknxt;
      assert MarkRight(chain, spaces, marks[k], saved[k]) && NotAbove(level, n, top, 0);
      assert marks'[k] == Moved(marks[k], chain[top], id, |space|);
      assert level == top ==> n == 0 && space[..0] == spaces[level][..0];
      BelowKept(spaces, spaces', level, n);
    }
  }

  lemma MoveKeeps(heap: map<nat, Block>, chain: seq<nat>, spaces: seq<seq<Byte>>, id: nat, space: seq<Byte>)
    requires Chained(heap, chain, spaces) && |chain| > 1
    requires id !in heap || id == chain[|chain| - 1]
    ensures var top := |chain| - 1;
            Chained((heap - {chain[top]})[id := Block(chain[top - 1], space)], chain[top := id], spaces[top := space])
  {
    var top := |chain| - 1;
    var heap' := (heap - {chain[top]})[id := Block(chain[top - 1], space)];
    forall i | i in heap'
      ensures i in chain[top := id]
    {
      if i == id { assert chain[top := id][top] == id; }
      else {
        var k :| 0 <= k < |chain| && chain[k] == i;
        assert chain[top := id][k] == i;
      }
    }
  }

  // ----- The stack -----

  class Region {
    var heap: map<nat, Block>
    var nextid: nat
    var stackp: nat
    var stacknxt: nat
    var stacknleft: nat
    var sstrnleft: int
    // the marks, the last set at the end
    var marks: seq<Mark>
    ghost var chain: seq<nat>
    ghost var spaces: seq<seq<Byte>>
    ghost var saved: seq<Saved>

    ghost predicate Valid()
      reads this
    {
      && Chained(heap, chain, spaces) && (forall id :: id in heap ==> id < nextid)
      && stackp == chain[|chain| - 1] && TopRight(spaces, stacknxt, stacknleft)
      && MarksRight(chain, spaces, marks, saved, stacknxt)
    }

    /** Everything allocated: the bytes below the top. */
    ghost function Allocated(): (r: seq<seq<Byte>>)
      requires Valid()
      reads this
    {
      Below(spaces, |spaces| - 1, stacknxt)
    }

    constructor ()
      ensures Valid() && marks == [] && |chain| == 1 && stacknxt == 0 && stacknleft == MINSIZE
    {
      var space: seq<Byte> := seq(MINSIZE, _ => 0);
      heap, nextid, stackp, stacknxt, stacknleft, sstrnleft, marks := map[BASE := Block(BASE, space)], 1, BASE, 0,
          MINSIZE, 0, [];
      chain, spaces, saved := [BASE], [space], [];
    }

    /** ckmalloc: a new block, whatever its bytes are. */
    method Malloc(len: nat, prev: nat) returns (id: nat, ghost space: seq<Byte>)
      requires forall i :: i in heap ==> i < nextid
      modifies this`heap, this`nextid
      ensures id == old(nextid) && nextid == id + 1 && |space| == len && heap == old(heap)[id := Block(prev, space)]
    {
      assert |seq(len, _ => 0 as Byte)| == len;
      var bytes: seq<Byte> :| |bytes| == len;
      id := nextid;
      heap, nextid, space := heap[id := Block(prev, bytes)], nextid + 1, bytes;
    }

    /** A new block goes on top; what is left of the one below is not used for now. */
    method NewBlock(blocksize: nat)
      requires Valid() && blocksize % ALIGNMENT == 0
      modifies this
      ensures Valid() && marks == old(marks) && saved == old(saved)
      ensures stacknxt == 0 && stacknleft == blocksize && sstrnleft == old(sstrnleft)
      ensures |chain| == |old(chain)| + 1 && chain[..|old(chain)|] == old(chain)
      ensures |spaces| == |chain| && spaces[..|old(spaces)|] == old(spaces)
      ensures stackp !in old(heap) && old(heap.Keys) <= heap.Keys
    {
      hide Chained, MarkRight, MarksRight;
      SameLength(heap, chain, spaces);
      ghost var was := heap;
      var sp, space := Malloc(blocksize, stackp);
      PushKeeps(was, chain, spaces, sp, space);
      PushKeepsMarks(chain, spaces, marks, saved, stacknxt, sp, space);
      stacknxt, stacknleft, stackp := 0, blocksize, sp;
      chain, spaces := chain + [sp], spaces + [space];
    }

    /** The top goes up within its block. */
    method Take(n: nat)
      requires Valid() && n <= stacknleft && n % ALIGNMENT == 0
      modifies this`stacknxt, this`stacknleft
      ensures Valid() && stacknxt == old(stacknxt) + n && stacknleft == old(stacknleft) - n
    {
      hide Chained, MarkRight;
      TopKeepsMarks(chain, spaces, marks, saved, stacknxt, stacknxt + n);
      stacknxt, stacknleft := stacknxt + n, stacknleft - n;
    }

    /** Allocate, in the top block if there is room. */
    method Stalloc(nbytes: nat) returns (p: (nat, nat))
      requires Valid()
      modifies this
      ensures Valid() && marks == old(marks) && saved == old(saved) && p.0 == stackp && sstrnleft == old(sstrnleft)
      ensures stacknxt == p.1 + Align(nbytes)
      ensures Align(nbytes) <= old(stacknleft) ==>
                && chain == old(chain) && spaces == old(spaces) && heap == old(heap)
                && stackp == old(stackp) && p.1 == old(stacknxt) && stacknleft == old(stacknleft) - Align(nbytes)
      ensures Align(nbytes) > old(stacknleft) ==>
                && |chain| == |old(chain)| + 1 && chain[..|old(chain)|] == old(chain)
                && |spaces| == |chain| && spaces[..|old(spaces)|] == old(spaces)
                && stackp !in old(heap) && p.1 == 0
                && stacknleft == (if Align(nbytes) < MINSIZE then MINSIZE else Align(nbytes)) - Align(nbytes)
    {
      hide Chained, MarksRight, TopRight;
      var n := Align(nbytes);
      if n > stacknleft {
        var blocksize := n;
        if blocksize < MINSIZE { blocksize := MINSIZE; }
        NewBlock(blocksize);
      }
      p := (stackp, stacknxt);
      Take(n);
    }

    /** Give back what was allocated from position p on, in the top block, and not below the last mark. */
    method Stunalloc(p: nat)
      requires Valid() && p <= stacknxt && p % ALIGNMENT == 0
      requires marks != [] && marks[|marks| - 1].stackp == stackp ==> marks[|marks| - 1].stacknxt <= p
      modifies this`stacknxt, this`stacknleft
      ensures Valid() && stacknxt == p && stacknleft == old(stacknleft) + (old(stacknxt) - p)
    {
      LastMarkBelow(chain, spaces, marks, saved, stacknxt, p);
      TopKeepsMarks(chain, spaces, marks, saved, stacknxt, p);
      stacknleft := stacknleft + (stacknxt - p);
      stacknxt := p;
    }

    /** Remember where the top is. */
    method SetStackMark()
      requires Valid()
      modifies this`marks, this`saved
      ensures Valid() && marks == old(marks) + [Mark(stackp, stacknxt, stacknleft)]
      ensures saved == old(saved) + [Saved(|chain| - 1, Mark(stackp, stacknxt, stacknleft), Allocated())]
    {
      SetKeepsMarks(chain, spaces, marks, saved, stacknxt, stacknleft);
      ghost var below := Allocated();
      marks := marks + [Mark(stackp, stacknxt, stacknleft)];
      saved := saved + [Saved(|chain| - 1, Mark(stackp, stacknxt, stacknleft), below)];
    }

    /** ckfree. */
    method Free(id: nat)
      requires id in heap
      modifies this`heap
      ensures heap == old(heap) - {id}
    {
      heap := heap - {id};
    }

    /** The blocks above block level are freed, from the top down. */
    method FreeAbove(ghost level: nat, bottom: nat)
      requires Chained(heap, chain, spaces) && level < |chain| && bottom == chain[level] && stackp == chain[|chain| - 1]
      modifies this`heap, this`stackp, this`chain, this`spaces
      ensures chain == old(chain)[..level + 1] && spaces == old(spaces)[..level + 1] && stackp == bottom
      ensures Chained(heap, chain, spaces)
      ensures forall id :: id in old(heap) ==> (id in heap <==> id in chain)
      ensures forall id :: id in heap ==> id in old(heap)
    {
      hide Chained;
      SameLength(heap, chain, spaces);
      ghost var chain0, spaces0, k := chain, spaces, |chain| - 1;
      assert chain0[..k + 1] == chain0 && spaces0[..k + 1] == spaces0;
      while stackp != bottom
        invariant level <= k < |chain0| == |spaces0| && chain == chain0[..k + 1] && spaces == spaces0[..k + 1]
        invariant stackp == chain0[k] && Chained(heap, chain, spaces)
        invariant forall id :: id in heap ==> id in old(heap)
        decreases k
      {
        FreeNext(heap, chain0, spaces0, k, level);
        var sp := stackp;
        stackp := heap[sp].prev;
        Free(sp);
        k := k - 1;
        chain, spaces := chain0[..k + 1], spaces0[..k + 1];
      }
      KeptAreChained(heap, chain0, spaces0, k, level);
    }

    /** Back to mark i. What was allocated when it was set is there again, and nothing else: the blocks
        that came later are freed. The mark's own block may have moved, if nothing of it was allocated. */
    method PopStackMark(i: nat)
      requires Valid() && i < |marks|
      modifies this
      ensures Valid() && marks == old(marks)[..i] && saved == old(saved)[..i]
      ensures |chain| == old(saved)[i].level + 1 && stacknxt == old(saved)[i].mark.stacknxt
      ensures Allocated() == old(saved)[i].below
      ensures (stackp == old(saved)[i].mark.stackp && stacknleft == old(saved)[i].mark.stacknleft)
              || (stacknxt == 0 && stackp != BASE)
      ensures chain == old(chain)[..|chain|] && forall id :: id in old(heap) ==> (id in heap <==> id in chain)
    {
      hide Chained, MarkRight, MarksRight;
      var m := marks[i];
      MarkTells(heap, chain, spaces, marks, saved, stacknxt, i);
      ghost var s := saved[i];
      CutKeepsMarks(chain, spaces, marks, saved, stacknxt, i);
      FreeAbove(s.level, m.stackp);
      marks, saved := marks[..i], saved[..i];
      stacknxt, stacknleft := m.stacknxt, m.stacknleft;
    }

    // ----- Room for a string -----

    /** The bytes above the top, where a string is built. */
    ghost function Room(): (r: seq<Byte>)
      requires Valid()
      reads this
    {
      spaces[|spaces| - 1][stacknxt..]
    }

    /** ckrealloc: more room for a block, in place or elsewhere. */
    method Realloc(sp: nat, newlen: nat, stays: bool) returns (to: nat, ghost space: seq<Byte>)
      requires sp in heap && newlen >= |heap[sp].space| && forall id :: id in heap ==> id < nextid
      modifies this`heap, this`nextid
      ensures to == (if stays then sp else old(nextid)) && nextid == old(nextid) + (if stays then 0 else 1)
      ensures heap == (old(heap) - {sp})[to := Block(old(heap)[sp].prev, space)]
      ensures |space| == newlen && space[..|old(heap)[sp].space|] == old(heap)[sp].space
    {
      var more := newlen - |heap[sp].space|;
      assert |seq(more, _ => 0 as Byte)| == more;
      var junk: seq<Byte> :| |junk| == more;
      to := if stays then sp else nextid;
      var bytes := heap[sp].space + junk;
      heap := (heap - {sp})[to := Block(heap[sp].prev, bytes)];
      if !stays { nextid := nextid + 1; }
      space := bytes;
    }

    /** The block on top gets more room, and the marks in it follow. */
    method MoveTop(newlen: nat, stays: bool)
      requires Valid() && stacknxt == 0 && stackp != BASE && newlen >= stacknleft && newlen % ALIGNMENT == 0
      modifies this
      ensures Valid() && saved == old(saved) && |marks| == |old(marks)|
      ensures stacknxt == 0 && stacknleft == newlen && sstrnleft == old(sstrnleft)
      ensures Room()[..old(stacknleft)] == old(Room()) && |chain| == |old(chain)|
      ensures marks == MovedFrom(old(marks), 0, old(stackp), stackp, newlen)
    {
      hide Chained, MarkRight, MarksRight, MovedFrom, SplitAt;
      MoreThanBase(heap, chain, spaces, marks, saved, stacknxt);
      ghost var top := |chain| - 1;
      ghost var was := heap;
      var sp := stackp;
      var to, space := Realloc(sp, newlen, stays);
      MoveKeeps(was, chain, spaces, to, space);
      MoveKeepsMarks(chain, spaces, marks, saved, to, space);
      stackp, stacknxt, stacknleft := to, 0, newlen;
      marks := RelocateMarks(marks, sp, to, newlen);
      chain, spaces := chain[top := to], spaces[top := space];
    }

    /** The string in the room above the top goes to a new block. */
    method CopyUp(newlen: nat)
      requires Valid() && newlen > stacknleft && newlen % ALIGNMENT == 0 && newlen >= 1
      modifies this
      ensures Valid() && saved == old(saved) && marks == old(marks)
      ensures stacknxt == 0 && stacknleft >= newlen && sstrnleft == old(sstrnleft)
      ensures Room()[..old(stacknleft)] == old(Room())
      ensures |chain| == |old(chain)| + 1 && chain[..|old(chain)|] == old(chain)
    {
      hide Chained, MarkRight, MarksRight;
      SameLength(heap, chain, spaces);
      TopSpace(heap, chain, spaces);
      var oldspace := heap[stackp].space[stacknxt..];
      var p := Stalloc(newlen);
      SameLength(heap, chain, spaces);
      NoMarksAbove(chain, spaces, marks, saved, stacknxt, old(chain), old(spaces), old(stacknxt));
      Stunalloc(0);
      Write(0, oldspace);
    }

    /** Bytes are written above the top. */
    method Write(at: nat, bytes: seq<Byte>)
      requires Valid() && at + |bytes| <= stacknleft
      modifies this`heap, this`spaces
      ensures Valid() && Room() == old(Room())[..at] + bytes + old(Room())[at + |bytes|..]
      ensures |spaces| == |old(spaces)| && spaces[..|spaces| - 1] == old(spaces)[..|spaces| - 1]
    {
      hide Chained, MarkRight, MarksRight;
      SameLength(heap, chain, spaces);
      TopSpace(heap, chain, spaces);
      var b := heap[stackp];
      var p := stacknxt + at;
      var space := b.space[..p] + bytes + b.space[p + |bytes|..];
      assert space[..stacknxt] == b.space[..stacknxt];
      WriteKeeps(heap, chain, spaces, space);
      WriteKeepsMarks(chain, spaces, marks, saved, stacknxt, space);
      heap := heap[stackp := b.(space := space)];
      spaces := spaces[|spaces| - 1 := space];
      assert space[stacknxt..] == b.space[stacknxt..][..at] + bytes + b.space[stacknxt..][at + |bytes|..];
    }

    /** growstackblock: more room above the top, with the same bytes at its start. */
    method GrowStackBlock(stays: bool)
      requires Valid()
      modifies this
      ensures Valid() && saved == old(saved) && |marks| == |old(marks)| && sstrnleft == old(sstrnleft)
      ensures stacknxt == 0 && stacknleft >= 2 * old(stacknleft) + 100
      ensures Room()[..old(stacknleft)] == old(Room())
    {
      var newlen := Align(stacknleft * 2 + 100);
      if stacknxt == 0 && stackp != BASE { MoveTop(newlen, stays); } else { CopyUp(newlen); }
    }

    // ----- Building a string -----

    /** The string so far is in the room above the top, and sstrnleft bytes are free behind it. */
    ghost predicate Building()
      reads this
    {
      Valid() && 0 <= sstrnleft <= stacknleft
    }

    ghost function Text(): (r: seq<Byte>)
      requires Building()
      reads this
    {
      Room()[..stacknleft - sstrnleft]
    }

    /** STARTSTACKSTR. */
    method StartStackStr() returns (p: nat)
      requires Valid()
      modifies this`sstrnleft
      ensures Building() && Text() == [] && p == stacknxt
    {
      p := stacknxt;
      sstrnleft := stacknleft;
    }

    /** growstackstr, outside a here document: room for one more byte, which the caller writes. */
    method GrowStackStr(stays: bool) returns (p: nat)
      requires Valid()
      modifies this
      ensures Valid() && saved == old(saved) && |marks| == |old(marks)|
      ensures p == stacknxt + old(stacknleft) && sstrnleft == stacknleft - old(stacknleft) - 1 >= 0
      ensures Room()[..old(stacknleft)] == old(Room())
    {
      var len := stacknleft;
      GrowStackBlock(stays);
      sstrnleft := stacknleft - len - 1;
      p := stacknxt + len;
    }

    /** STPUTC: a byte at the end of the string. */
    method Stputc(c: Byte, p: nat, stays: bool) returns (p': nat)
      requires Building() && p == stacknxt + |Text()|
      modifies this
      ensures Building() && Text() == old(Text()) + [c] && p' == stacknxt + |Text()|
      ensures saved == old(saved) && |marks| == |old(marks)|
    {
      hide Chained, MarkRight, MarksRight;
      ghost var text := Text();
      sstrnleft := sstrnleft - 1;
      p' := p;
      if sstrnleft < 0 { p' := GrowStackStr(stays); }
      assert Room()[..|text|] == text;
      Write(p' - stacknxt, [c]);
      p' := p' + 1;
    }

    /** CHECKSTRSPACE and makestrspace: room for n more bytes, if n is at most 100. */
    method CheckStrSpace(n: nat, p: nat, stays: bool) returns (p': nat)
      requires Building() && p == stacknxt + |Text()|
      modifies this
      ensures Building() && Text() == old(Text()) && p' == stacknxt + |Text()|
      ensures sstrnleft >= n || sstrnleft >= old(stacknleft) + 100
      ensures saved == old(saved) && |marks| == |old(marks)|
    {
      p' := p;
      if sstrnleft < n {
        ghost var text := Text();
        var len := stacknleft - sstrnleft;
        GrowStackBlock(stays);
        assert Room()[..len] == Room()[..old(stacknleft)][..len];
        sstrnleft := stacknleft - len;
        p' := stacknxt + len;
      }
    }

    /** USTPUTC: a byte at the end of the string, where there is room. */
    method Ustputc(c: Byte, p: nat) returns (p': nat)
      requires Building() && p == stacknxt + |Text()| && sstrnleft > 0
      modifies this
      ensures Building() && Text() == old(Text()) + [c] && p' == stacknxt + |Text()|
      ensures saved == old(saved) && marks == old(marks) && sstrnleft == old(sstrnleft) - 1
    {
      hide Chained, MarkRight, MarksRight;
      ghost var text := Text();
      sstrnleft := sstrnleft - 1;
      Write(p - stacknxt, [c]);
      p' := p + 1;
    }

    /** STUNPUTC: the last byte is taken back. */
    method Stunputc(p: nat) returns (p': nat)
      requires Building() && p == stacknxt + |Text()| && Text() != []
      modifies this`sstrnleft
      ensures Building() && Text() == old(Text())[..|old(Text())| - 1] && p' == stacknxt + |Text()|
    {
      sstrnleft := sstrnleft + 1;
      p' := p - 1;
    }

    /** grabstackstr: the string is allocated where it is, never in a new block. */
    method GrabStackStr() returns (p: nat)
      requires Building()
      modifies this
      ensures Valid() && marks == old(marks) && saved == old(saved) && chain == old(chain) && spaces == old(spaces)
      ensures p == old(stacknxt) && stacknxt == p + Align(|old(Text())|)
      ensures p + |old(Text())| <= |spaces[|spaces| - 1]| && spaces[|spaces| - 1][p..p + |old(Text())|] == old(Text())
    {
      AlignLeast(stacknleft - sstrnleft, stacknleft);
      var block := Stalloc(stacknleft - sstrnleft);
      p := block.1;
    }
  }

  lemma TopSpace(heap: map<nat, Block>, chain: seq<nat>, spaces: seq<seq<Byte>>)
    requires Chained(heap, chain, spaces)
    ensures |chain| == |spaces| > 0 && chain[|chain| - 1] in heap
            && heap[chain[|chain| - 1]].space == spaces[|spaces| - 1]
  {
  }

  lemma MoreThanBase(heap: map<nat, Block>, chain: seq<nat>, spaces: seq<seq<Byte>>, marks: seq<Mark>,
                     saved: seq<Saved>, nxt: nat)
    requires Chained(heap, chain, spaces) && chain[|chain| - 1] != BASE && MarksRight(chain, spaces, marks, saved, nxt)
    ensures var top := |chain| - 1;
            && |chain| == |spaces| > 1 && chain[top] in heap && heap[chain[top]] == Block(chain[top - 1], spaces[top])
            && (forall i, j :: 0 <= i < j < |chain| ==> chain[i] != chain[j]) && SplitAt(marks, chain[top])
  {
    var top := |chain| - 1;
    forall i, j | 0 <= i < j < |marks| && marks[i].stackp == chain[top]
      ensures marks[j].stackp == chain[top]
    {
      if marks[j].stackp != chain[top] { MarksOnTop(chain, spaces, marks, saved, nxt, j); }
    }
  }

  /** No mark is in a block that was not there when the marks were right. */
  lemma NoMarksAbove(chain: seq<nat>, spaces: seq<seq<Byte>>, marks: seq<Mark>, saved: seq<Saved>, nxt: nat,
                     chain0: seq<nat>, spaces0: seq<seq<Byte>>, nxt0: nat)
    requires MarksRight(chain, spaces, marks, saved, nxt) && MarksRight(chain0, spaces0, marks, saved, nxt0)
    requires |chain| == |chain0| + 1 && |chain0| == |spaces0| && |chain| == |spaces|
    requires forall i, j :: 0 <= i < j < |chain| ==> chain[i] != chain[j]
    ensures forall k :: 0 <= k < |marks| ==> marks[k].stackp != chain[|chain| - 1]
  {
    forall k | 0 <= k < |marks|
      ensures marks[k].stackp != chain[|chain| - 1]
    {
      assert MarkRight(chain, spaces, marks[k], saved[k]) && MarkRight(chain0, spaces0, marks[k], saved[k]);
    }
  }

  lemma FreeNext(heap: map<nat, Block>, chain: seq<nat>, spaces: seq<seq<Byte>>, k: nat, level: nat)
    requires level <= k < |chain| == |spaces| && Chained(heap, chain[..k + 1], spaces[..k + 1])
             && chain[k] != chain[level]
    ensures k > level && chain[k] in heap && heap[chain[k]].prev == chain[k - 1]
    ensures Chained(heap - {chain[k]}, chain[..k], spaces[..k])
  {
    PopKeeps(heap, chain[..k + 1], spaces[..k + 1]);
    assert chain[..k + 1][..k] == chain[..k] && spaces[..k + 1][..k] == spaces[..k];
    assert chain[..k + 1][k] == chain[k] && chain[..k + 1][level] == chain[level];
  }

  lemma KeptAreChained(heap: map<nat, Block>, chain: seq<nat>, spaces: seq<seq<Byte>>, k: nat, level: nat)
    requires level <= k < |chain| == |spaces| && Chained(heap, chain[..k + 1], spaces[..k + 1])
             && chain[k] == chain[level]
    ensures k == level && forall id :: id in heap <==> id in chain[..k + 1]
  {
    assert chain[..k + 1][k] == chain[k] && chain[..k + 1][level] == chain[level];
  }

  lemma MarkTells(heap: map<nat, Block>, chain: seq<nat>, spaces: seq<seq<Byte>>, marks: seq<Mark>, saved: seq<Saved>,
                  nxt: nat, i: nat)
    requires Chained(heap, chain, spaces) && MarksRight(chain, spaces, marks, saved, nxt) && i < |marks|
    requires forall k :: 0 <= k < |spaces| ==> |spaces[k]| % ALIGNMENT == 0
    ensures |marks| == |saved| && |chain| == |spaces|
    ensures var level := saved[i].level; var m := marks[i];
            && level < |chain| && m.stackp == chain[level] && m.stacknxt == saved[i].mark.stacknxt
            && TopRight(spaces[..level + 1], m.stacknxt, m.stacknleft)
            && (m == saved[i].mark || (m.stacknxt == 0 && m.stackp != BASE))
  {
    assert MarkRight(chain, spaces, marks[i], saved[i]);
  }

  lemma SameLength(heap: map<nat, Block>, chain: seq<nat>, spaces: seq<seq<Byte>>)
    requires Chained(heap, chain, spaces)
    ensures |chain| == |spaces| > 0 && forall i, j :: 0 <= i < j < |chain| ==> chain[i] != chain[j]
  {
  }

  lemma LastMarkBelow(chain: seq<nat>, spaces: seq<seq<Byte>>, marks: seq<Mark>, saved: seq<Saved>, nxt: nat, p: nat)
    requires MarksRight(chain, spaces, marks, saved, nxt) && |chain| == |spaces|
    requires forall i, j :: 0 <= i < j < |chain| ==> chain[i] != chain[j]
    requires marks != [] && marks[|marks| - 1].stackp == chain[|chain| - 1] ==> marks[|marks| - 1].stacknxt <= p
    ensures forall k {:trigger saved[k]} :: 0 <= k < |marks| ==>
              NotAbove(saved[k].level, marks[k].stacknxt, |chain| - 1, p)
  {
    forall k {:trigger saved[k]} | 0 <= k < |marks|
      ensures NotAbove(saved[k].level, marks[k].stacknxt, |chain| - 1, p)
    {
      var last := |marks| - 1;
      assert MarkRight(chain, spaces, marks[last], saved[last]) && MarkRight(chain, spaces, marks[k], saved[k]);
      assert k < last ==> NotAbove(saved[k].level, marks[k].stacknxt, saved[last].level, marks[last].stacknxt);
    }
  }

  lemma SetKeepsMarks(chain: seq<nat>, spaces: seq<seq<Byte>>, marks: seq<Mark>, saved: seq<Saved>, nxt: nat,
                      nleft: nat)
    requires MarksRight(chain, spaces, marks, saved, nxt) && |chain| == |spaces| && TopRight(spaces, nxt, nleft)
    ensures var top := |chain| - 1; var m := Mark(chain[top], nxt, nleft);
            MarksRight(chain, spaces, marks + [m], saved + [Saved(top, m, Below(spaces, top, nxt))], nxt)
  {
    var top := |chain| - 1;
    var m := Mark(chain[top], nxt, nleft);
    var saved' := saved + [Saved(top, m, Below(spaces, top, nxt))];
    forall k {:trigger saved'[k]} | 0 <= k < |marks|
      ensures saved'[k] == saved[k] && MarkRight(chain, spaces, (marks + [m])[k], saved'[k])
      ensures NotAbove(saved'[k].level, marks[k].stacknxt, top, nxt)
    {
      assert MarkRight(chain, spaces, marks[k], saved[k]);
    }
  }
}
