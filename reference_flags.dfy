/**
 * What the flags of the reference arithmetic instructions mean
 * (src/interpreter/collection/opcode_fn.rs, commented out): carry reports
 * unsigned wrap-around, borrow or a remainder, negative is the sign of the
 * result read as a two's-complement word, and overflow reports a signed
 * result that does not fit in 16 bits.
 */
module ReferenceFlags {
  import opened Defs
  import opened Arith
  import opened ReferenceOps

  const M: int := 0x1_0000

  /** A value in [0, 2M) reduces by subtracting M at most once. */
  lemma WrapOnce(x: int)
    requires 0 <= x < 2 * M
    ensures x % M == (if x >= M then x - M else x)
  {
    if x >= M {
      DivModUnique(x, M, 1, x - M);
    } else {
      DivModUnique(x, M, 0, x);
    }
  }

  /** A value in (-M, M) reduces by adding M at most once. */
  lemma WrapBorrow(x: int)
    requires -M < x < M
    ensures x % M == (if x < 0 then x + M else x)
  {
    if x < 0 {
      DivModUnique(x, M, -1, x + M);
    } else {
      DivModUnique(x, M, 0, x);
    }
  }

  /** Two signed 16-bit values with the same remainder modulo 2^16 are equal. */
  lemma SameResidue(a: int, b: int)
    requires InI16(a) && InI16(b) && a % M == b % M
    ensures a == b
  {
    WrapBorrow(a);
    WrapBorrow(b);
  }

  /** The negative flag is bit 15 of the result, that is, the sign of its signed reading. */
  lemma NegativeIsSign(r: u16)
    ensures ((r / 0x8000) % 2 == 1) <==> Signed(r) < 0
  {
    assert (r / 0x8000) % 2 == SignBit(r);
  }

  /**
   * ADD: carry is set exactly when the unsigned sum wrapped; overflow is set
   * exactly when the signed sum does not fit, and otherwise the result read
   * as signed is the signed sum.
   */
  lemma AddFlagsMeaning(v1: u16, v2: u16)
    ensures var r := ArithResult(AddOp, v1, v2);
            var f := ArithFlags(AddOp, v1, v2);
            && (f.carry ==> r == v1 + v2 - M)
            && (!f.carry ==> r == v1 + v2)
            && (f.zero <==> (v1 + v2) % M == 0)
            && (f.negative <==> Signed(r) < 0)
            && (f.overflow <==> !InI16(Signed(v1) + Signed(v2)))
            && (!f.overflow ==> Signed(r) == Signed(v1) + Signed(v2))
  {
    var r := ArithResult(AddOp, v1, v2);
    WrapOnce(v1 + v2);
    NegativeIsSign(r);
  }

  /**
   * SUB: carry (borrow) is set exactly when the unsigned difference wrapped;
   * overflow is set exactly when the signed difference does not fit, and
   * otherwise the result read as signed is the signed difference.
   */
  lemma SubFlagsMeaning(v1: u16, v2: u16)
    ensures var r := ArithResult(SubOp, v1, v2);
            var f := ArithFlags(SubOp, v1, v2);
            && (f.carry ==> r == v1 - v2 + M)
            && (!f.carry ==> r == v1 - v2)
            && (f.zero <==> v1 == v2)
            && (f.negative <==> Signed(r) < 0)
            && (f.overflow <==> !InI16(Signed(v1) - Signed(v2)))
            && (!f.overflow ==> Signed(r) == Signed(v1) - Signed(v2))
  {
    var r := ArithResult(SubOp, v1, v2);
    WrapBorrow(v1 - v2);
    NegativeIsSign(r);
  }

  /** The signed product has the same remainder modulo 2^16 as the unsigned one. */
  lemma ProductResidue(v1: u16, v2: u16)
    ensures (Signed(v1) * Signed(v2)) % M == (v1 * v2) % M
  {
    var s1, s2 := Signed(v1), Signed(v2);
    if v1 >= 0x8000 && v2 >= 0x8000 {
      assert s1 * s2 == v1 * v2 + (M - v1 - v2) * M;
      AddMultiple(v1 * v2, M - v1 - v2, M);
    } else if v1 >= 0x8000 {
      assert s1 * s2 == v1 * v2 + (0 - v2 as int) * M;
      AddMultiple(v1 * v2, 0 - v2 as int, M);
    } else if v2 >= 0x8000 {
      assert s1 * s2 == v1 * v2 + (0 - v1 as int) * M;
      AddMultiple(v1 * v2, 0 - v1 as int, M);
    }
  }

  /**
   * MUL: without carry the result is the whole unsigned product; overflow
   * is set exactly when the signed product does not fit, and otherwise the
   * result read as signed is the signed product.
   */
  lemma MulFlagsMeaning(v1: u16, v2: u16)
    ensures var r := ArithResult(MulOp, v1, v2);
            var f := ArithFlags(MulOp, v1, v2);
            && (f.carry <==> r != v1 * v2)
            && (f.negative <==> Signed(r) < 0)
            && (f.overflow <==> Signed(r) != Signed(v1) * Signed(v2))
  {
    var r := ArithResult(MulOp, v1, v2);
    var p := Signed(v1) * Signed(v2);
    NegativeIsSign(r);
    if v1 * v2 < M {
      DivModUnique(v1 * v2, M, 0, v1 * v2);
    } else {
      assert r < M <= v1 * v2;
    }
    if InI16(p) {
      ProductResidue(v1, v2);
      SameResidue(Signed(r), p);
    }
  }

  /** A positive number divided by two or more gets smaller. */
  lemma DivShrinks(x: nat, y: nat)
    requires y >= 2 && x > 0
    ensures x / y < x
  {
    var q := x / y;
    assert x == q * y + x % y;
    assert q * y == q * 2 + q * (y - 2);
    assert q * (y - 2) >= 0;
  }

  /** The truncated signed quotient of two signed 16-bit values fits, except for -32768 / -1. */
  lemma TruncDivRange(a: int, b: int)
    requires InI16(a) && InI16(b) && b != 0
    ensures !InI16(TruncDiv(a, b)) <==> a == -0x8000 && b == -1
  {
    var q := Abs(a) / Abs(b);
    DivAtMost(Abs(a), Abs(b));
    if q >= 0x8000 {
      assert Abs(a) == 0x8000 && a == -0x8000;
      if Abs(b) >= 2 {
        DivShrinks(Abs(a), Abs(b));
      }
      assert Abs(b) == 1;
    }
  }

  /**
   * DIV (divisor not zero): the result is the unsigned quotient; carry is
   * set exactly when the division leaves a remainder; overflow is set
   * exactly when the signed quotient does not fit in 16 bits.
   */
  lemma DivFlagsMeaning(v1: u16, v2: u16)
    requires v2 != 0
    ensures var r := ArithResult(DivOp, v1, v2);
            var f := ArithFlags(DivOp, v1, v2);
            && r * v2 <= v1 < (r + 1) * v2
            && (!f.carry <==> r * v2 == v1)
            && (f.negative <==> Signed(r) < 0)
            && (f.overflow <==> !InI16(TruncDiv(Signed(v1), Signed(v2))))
  {
    var r := ArithResult(DivOp, v1, v2);
    assert v1 == r * v2 + v1 % v2;
    assert (r + 1) * v2 == r * v2 + v2;
    NegativeIsSign(r);
    TruncDivRange(Signed(v1), Signed(v2));
  }

  /** 0x8000 / 0xFFFF: the quotient is 0, yet overflow is set, since -32768 / -1 does not fit. */
  lemma DivOverflowExample()
    ensures ArithResult(DivOp, 0x8000, 0xFFFF) == 0
    ensures ArithFlags(DivOp, 0x8000, 0xFFFF) == Flags(true, false, true, true)
  {
  }
}
