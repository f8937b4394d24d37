/**
 * Properties of the word operators of src/types/impls.rs: bitwise operators on
 * a narrow word act on its low bits only, shifts past the width clear the word,
 * shift counts wrap at 64, subtraction undoes addition.
 */
module WordProperties {
  import opened Defs
  import opened Arith
  import opened Word

  /** Truncating an n-digit bitwise result to its low k digits gives the k-digit bitwise result. */
  lemma {:induction false} BitwiseLowDigits(op: BitOp, x: nat, y: nat, n: nat, k: nat)
    requires k <= n
    ensures Bitwise(op, x, y, n) % Pow2(k) == Bitwise(op, x, y, k)
  {
    if k > 0 {
      BitwiseLowDigits(op, x / 2, y / 2, n - 1, k - 1);
      ModDoubleJoin(BitOf(op, x % 2, y % 2), Bitwise(op, x / 2, y / 2, n - 1), Pow2(k - 1));
    }
  }

  /** On a word of at most 64 bits, `&`, `|` and `^` are the operators on the low w bits of both usize images. */
  lemma BitwiseWordAtWidth(op: BitOp, a: DSB, b: DSB)
    requires !a.Flag? && GetSize(a) <= 64
    ensures ValueOf(BitwiseWord(op, a, b)) == Bitwise(op, AsUsize(a), AsUsize(b), GetSize(a))
  {
    Pow2Widths();
    BitwiseLowDigits(op, AsUsize(a), AsUsize(b), 64, GetSize(a));
  }

  lemma {:induction false} BitwiseWithItself(x: nat, n: nat)
    ensures Bitwise(AndOp, x, x, n) == x % Pow2(n)
    ensures Bitwise(OrOp, x, x, n) == x % Pow2(n)
    ensures Bitwise(XorOp, x, x, n) == 0
  {
    if n > 0 {
      BitwiseWithItself(x / 2, n - 1);
      ModDoubleSplit(x, Pow2(n - 1));
    }
  }

  /** `a & a` and `a | a` give `a` back; a usize comes back as the equal u64. */
  lemma AndOrWithItself(a: DSB)
    requires GetSize(a) <= 64
    ensures !a.USIZE? ==> BitAnd(a, a) == a && BitOr(a, a) == a
    ensures a.USIZE? ==> BitAnd(a, a) == U64(a.n) && BitOr(a, a) == U64(a.n)
  {
    var x := AsUsize(a);
    BitwiseWithItself(x, 64);
    assert x % Pow2(64) == x by {
      Pow2Widths();
    }
    assert BitAnd(a, a) == FromUsizeMatchingSize(x, a);
    assert BitOr(a, a) == FromUsizeMatchingSize(x, a);
    RetagOwnValue(a);
  }

  /** Re-tagging a word's own usize image with its own width gives the word back (usize as u64). */
  lemma RetagOwnValue(a: DSB)
    requires GetSize(a) <= 64
    ensures !a.USIZE? ==> FromUsizeMatchingSize(AsUsize(a), a) == a
    ensures a.USIZE? ==> FromUsizeMatchingSize(AsUsize(a), a) == U64(a.n)
  {
  }

  /** `a ^ a` is the zero of a's width. */
  lemma XorWithItself(a: DSB)
    ensures SameWidthKind(BitXor(a, a), a) && AsUsize(BitXor(a, a)) == 0
  {
    BitwiseWithItself(AsUsize(a), 64);
  }

  /** Shifting left by at least the width (after the count wraps at 64) clears the word. */
  lemma ShlPastWidthIsZero(a: DSB, b: DSB)
    requires !a.Flag? && GetSize(a) <= AsUsize(b) % 64
    ensures SameWidthKind(Shl(a, b), a) && ValueOf(Shl(a, b)) == 0
  {
    MulPow2ModSmaller(AsUsize(a), AsUsize(b) % 64, GetSize(a));
  }

  /** Shifting right by at least the width (after the count wraps at 64) clears the word. */
  lemma ShrPastWidthIsZero(a: DSB, b: DSB)
    requires !a.Flag? && GetSize(a) <= AsUsize(b) % 64
    ensures SameWidthKind(Shr(a, b), a) && ValueOf(Shr(a, b)) == 0
  {
    assert AsUsize(a) == ValueOf(a) < Modulus(a);
    DivByLargerPow2(AsUsize(a), GetSize(a), AsUsize(b) % 64);
  }

  /** A shift count that is a multiple of 64 wraps to zero and leaves the word as it was. */
  lemma ShiftByMultipleOf64(a: DSB, b: DSB)
    requires !a.USIZE? && GetSize(a) <= 64 && AsUsize(b) % 64 == 0
    ensures Shl(a, b) == a && Shr(a, b) == a
  {
  }

  /** The 16-bit cases: a shift by 16 clears a u16, a shift by 64 leaves it unchanged. */
  lemma ShiftU16(v: u16)
    ensures Shl(U16(v), U16(16)) == U16(0) && Shr(U16(v), U16(16)) == U16(0)
    ensures Shl(U16(v), U16(64)) == U16(v) && Shr(U16(v), U16(64)) == U16(v)
  {
    ShlPastWidthIsZero(U16(v), U16(16));
    ShrPastWidthIsZero(U16(v), U16(16));
    ShiftByMultipleOf64(U16(v), U16(64));
  }

  /** Subtracting b after adding b gives the original value back, for any non-flag width up to 64 bits. */
  lemma SubUndoesAdd(a: DSB, b: DSB)
    requires !a.Flag? && GetSize(a) <= 64
    ensures ValueOf(Sub(Add(a, b), b)) == ValueOf(a)
    ensures !a.USIZE? ==> Sub(Add(a, b), b) == a
  {
    var m, x, y: int := Modulus(a), AsUsize(a), AsUsize(b);
    var s := Add(a, b);
    assert ValueOf(s) == (x + y) % m;
    assert AsUsize(s) == ValueOf(s);
    var q := (x + y) / m;
    assert x + y == q * m + (x + y) % m;
    assert AsUsize(s) - y == (-q) * m + x;
    DivModUnique(AsUsize(s) - y, m, -q, x);
  }

  /** NOT twice is the identity. */
  lemma NotTwice(a: DSB)
    ensures Not(Not(a)) == a
  {
  }
}
