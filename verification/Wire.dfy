/** The little-endian two's-complement integers of the image patch format. */
module Wire {
  import opened Bytes
  import opened Offsets

  /** Byte i of x in two's complement. */
  function ByteOf(x: int, i: nat): (r: Byte)
    decreases i, x
  {
    if i == 0 then x % 256 else ByteOf(x / 256, i - 1)
  }

  /** The n low bytes of x, lowest first. */
  function Write(x: int, n: nat): (r: seq<Byte>)
    ensures |r| == n
  {
    seq(n, i requires 0 <= i < n => ByteOf(x, i))
  }

  function Read(b: seq<Byte>): (r: int) {
    var y: int := Value(b);
    if 2 * y >= Pow256(|b|) then y - Pow256(|b|) else y
  }

  lemma {:induction false} WriteValue(x: int, n: nat)
    requires 0 <= x + Pow256(n) < 2 * Pow256(n)
    ensures Value(Write(x, n)) == if x < 0 then x + Pow256(n) else x
    decreases n
  {
    if n > 0 {
      assert 0 <= x / 256 + Pow256(n - 1) < 2 * Pow256(n - 1);
      WriteValue(x / 256, n - 1);
      assert Write(x, n)[1..] == Write(x / 256, n - 1);
    }
  }

  /** A number survives being written in n bytes exactly when it is in the signed range of n bytes. */
  lemma WriteReadBack(x: int, n: nat)
    ensures Read(Write(x, n)) == x <==> 0 <= 2 * x + Pow256(n) < 2 * Pow256(n)
  {
    ValueBound(Write(x, n));
    if 0 <= 2 * x + Pow256(n) < 2 * Pow256(n) {
      WriteValue(x, n);
    }
  }

  /** Below 2^31 in magnitude four bytes are enough; below 2^63, eight. */
  lemma FitsFour(x: int)
    requires -0x8000_0000 <= x < 0x8000_0000
    ensures Read(Write(x, 4)) == x
  {
    WriteReadBack(x, 4);
    assert Pow256(4) == 256 * Pow256(3) == 65536 * Pow256(2) == 0x1_0000_0000;
  }

  lemma ReadZeros()
    ensures Read([0, 0, 0, 0]) == 0
  {
    FitsFour(0);
    assert ByteOf(0, 1) == ByteOf(0, 2) == ByteOf(0, 3) == 0;
    assert Write(0, 4) == [0, 0, 0, 0];
  }

  // ----- Runs of numbers -----

  /** The numbers xs, the first of them in eight bytes each, the others in four. */
  function WriteAll(xs: seq<int>, eights: nat, fours: nat): (r: seq<Byte>)
    requires |xs| == eights + fours
    ensures |r| == 8 * eights + 4 * fours
    decreases |xs|
  {
    if eights > 0 then Write(xs[0], 8) + WriteAll(xs[1..], eights - 1, fours)
    else if fours > 0 then Write(xs[0], 4) + WriteAll(xs[1..], 0, fours - 1)
    else []
  }

  /** The numbers that start at pos. */
  function ReadAll(b: seq<Byte>, pos: nat, eights: nat, fours: nat): (r: seq<int>)
    requires pos + 8 * eights + 4 * fours <= |b|
    ensures |r| == eights + fours
    decreases eights, fours, |b|
  {
    if eights > 0 then [Read(b[pos..pos + 8])] + ReadAll(b, pos + 8, eights - 1, fours)
    else if fours > 0 then [Read(b[pos..pos + 4])] + ReadAll(b, pos + 4, 0, fours - 1)
    else []
  }

  ghost predicate InWidth(x: int, n: nat) {
    0 <= 2 * x + Pow256(n) < 2 * Pow256(n)
  }

  /** Every number is in the signed range of its width. */
  ghost predicate AllInWidth(xs: seq<int>, eights: nat, fours: nat) {
    && |xs| == eights + fours
    && (forall i :: 0 <= i < eights ==> InWidth(xs[i], 8))
    && (forall i :: eights <= i < |xs| ==> InWidth(xs[i], 4))
  }

  /** The bytes s lie in b from pos on. */
  ghost predicate At(b: seq<Byte>, pos: nat, s: seq<Byte>) {
    pos + |s| <= |b| && b[pos..pos + |s|] == s
  }

  lemma AtSplit(b: seq<Byte>, pos: nat, st: seq<Byte>, s: seq<Byte>, t: seq<Byte>)
    requires At(b, pos, st) && st == s + t
    ensures At(b, pos, s) && At(b, pos + |s|, t)
  {
    assert b[pos..pos + |s|] == b[pos..pos + |st|][..|s|];
    assert b[pos + |s|..pos + |s| + |t|] == b[pos..pos + |st|][|s|..];
  }

  /** Numbers are read back from where they were written. */
  lemma {:induction false} ReadAllWritten(b: seq<Byte>, pos: nat, xs: seq<int>, eights: nat, fours: nat)
    requires AllInWidth(xs, eights, fours) && At(b, pos, WriteAll(xs, eights, fours))
    ensures ReadAll(b, pos, eights, fours) == xs
    decreases |xs|
  {
    if xs != [] {
      var n := if eights > 0 then 8 else 4;
      var eights', fours' := if eights > 0 then eights - 1 else 0, if eights > 0 then fours else fours - 1;
      AtSplit(b, pos, WriteAll(xs, eights, fours), Write(xs[0], n), WriteAll(xs[1..], eights', fours'));
      assert InWidth(xs[0], n);
      WriteReadBack(xs[0], n);
      ReadAllWritten(b, pos + n, xs[1..], eights', fours');
    }
  }

  lemma WidthLimits(x: int)
    ensures -0x8000_0000 <= x < 0x8000_0000 ==> InWidth(x, 4)
    ensures -SIGNED_LIMIT <= x < SIGNED_LIMIT ==> InWidth(x, 8)
  {
    assert Pow256(4) == 256 * Pow256(3) == 65536 * Pow256(2) == 0x1_0000_0000;
    Pow256Seven();
  }
}
