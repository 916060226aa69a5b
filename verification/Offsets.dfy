/** Fixed-width integers in patch files: little-endian digits, and bsdiff's sign-and-magnitude offsets. */
module Offsets {
  import opened Bytes

  function Pow256(n: nat): (r: nat)
    ensures r > 0
  {
    if n == 0 then 1 else 256 * Pow256(n - 1)
  }

  /** The n low base-256 digits of y, lowest first. */
  function Digits(y: nat, n: nat): (r: seq<Byte>)
    ensures |r| == n
  {
    if n == 0 then [] else [y % 256] + Digits(y / 256, n - 1)
  }

  function Value(b: seq<Byte>): (r: nat) {
    if b == [] then 0 else b[0] + 256 * Value(b[1..])
  }

  lemma {:induction false} ValueBound(b: seq<Byte>)
    ensures Value(b) < Pow256(|b|)
  {
    if b != [] { ValueBound(b[1..]); }
  }

  lemma {:induction false} DigitsValue(y: nat, n: nat)
    requires y < Pow256(n)
    ensures Value(Digits(y, n)) == y
  {
    if n > 0 {
      DigitsValue(y / 256, n - 1);
      assert Digits(y, n)[1..] == Digits(y / 256, n - 1);
    }
  }

  lemma {:induction false} ValueSplit(b: seq<Byte>, top: Byte)
    ensures Value(b + [top]) == Value(b) + Pow256(|b|) * top
  {
    if b == [] {
      assert b + [top] == [top];
    } else {
      ValueSplit(b[1..], top);
      assert (b + [top])[1..] == b[1..] + [top];
      MulStep(Pow256(|b| - 1), top);
    }
  }

  lemma MulStep(p: nat, t: nat)
    ensures 256 * (p * t) == (256 * p) * t
  {
  }

  lemma Pow256Seven()
    ensures Pow256(7) == 0x100_0000_0000_0000 && Pow256(8) == 0x1_0000_0000_0000_0000
  {
    assert Pow256(4) == 256 * Pow256(3) == 65536 * Pow256(2) == 0x1_0000_0000;
    assert Pow256(7) == 256 * Pow256(6) == 65536 * Pow256(5) == 0x100_0000 * Pow256(4);
  }

  const SIGNED_LIMIT: int := 0x8000_0000_0000_0000

  /** What an int and an unsigned int of 32 bits cannot hold. */
  const INT_LIMIT: int := 0x8000_0000
  const UINT_LIMIT: int := 0x1_0000_0000

  /** offtout: eight magnitude digits, the top bit of the last byte carrying the sign. */
  function OffOut(x: int): (r: seq<Byte>)
    ensures |r| == 8
  {
    var d := Digits(if x < 0 then -x else x, 8);
    if x < 0 && d[7] < 0x80 then d[..7] + [d[7] + 0x80] else d
  }

  /** offtin */
  function OffIn(b: seq<Byte>): (r: int)
    requires |b| == 8
  {
    var y: int := Value(b[..7] + [b[7] % 0x80]);
    if b[7] >= 0x80 then -y else y
  }

  /** A signed offset survives the patch file exactly when its magnitude fits in 63 bits. */
  lemma OffsetRoundTrip(x: int)
    ensures OffIn(OffOut(x)) == x <==> -SIGNED_LIMIT < x < SIGNED_LIMIT
  {
    Pow256Seven();
    var b := OffOut(x);
    var low, top := b[..7], b[7] % 0x80;
    ValueSplit(low, top);
    ValueBound(low);
    assert -SIGNED_LIMIT < OffIn(b) < SIGNED_LIMIT by {
      assert Pow256(|low|) * top <= Pow256(7) * 0x7f;
    }
    if -SIGNED_LIMIT < x < SIGNED_LIMIT {
      var y := if x < 0 then -x else x;
      DigitsValue(y, 8);
      var d := Digits(y, 8);
      assert d == d[..7] + [d[7]];
      ValueSplit(d[..7], d[7]);
      TopDigitSmall(y, Value(d[..7]), d[7]);
      assert low == d[..7] && top == d[7];
    }
  }

  lemma TopDigitSmall(y: nat, low: nat, top: nat)
    requires y == low + Pow256(7) * top && y < SIGNED_LIMIT
    ensures top < 0x80
  {
    Pow256Seven();
  }
}
