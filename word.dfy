/**
 * The word value of src/types/impls.rs: widths, the conversion to the host
 * usize (64 bits here) and back, and the operators. Every binary operator
 * converts both operands to usize, computes with 64-bit wrap-around, and
 * re-tags the result with the width of the left operand.
 */
module Word {
  import opened Defs
  import opened Arith

  const U64_MODULUS: nat := 0x1_0000_0000_0000_0000

  /** `get_size`: the word's width in bits; a whole number of bytes except for the one-bit flag, and 64 for a usize. */
  function GetSize(d: DSB): (n: nat)
    ensures 1 <= n <= 128 && n % 8 == (if d.Flag? then 1 else 0)
    ensures d.USIZE? ==> n == 64
  {
    match d
    case Flag(_) => 1
    case U8(_) => 8
    case U16(_) => 16
    case U32(_) => 32
    case U64(_) => 64
    case U128(_) => 128
    case USIZE(_) => 64
  }

  /** The number a word holds; a flag holds 0 or 1. */
  function ValueOf(d: DSB): nat
  {
    match d
    case Flag(f) => if f then 1 else 0
    case U8(b) => b
    case U16(h) => h
    case U32(w) => w
    case U64(x) => x
    case U128(q) => q
    case USIZE(n) => n
  }

  /** One more than the largest value of the word's width. */
  function Modulus(d: DSB): (m: nat)
    ensures m == Pow2(GetSize(d))
    ensures ValueOf(d) < m
  {
    Pow2Widths();
    match d
    case Flag(_) => 2
    case U8(_) => 0x100
    case U16(_) => 0x1_0000
    case U32(_) => 0x1_0000_0000
    case U64(_) => U64_MODULUS
    case U128(_) => 0x1_0000_0000_0000_0000_0000_0000_0000_0000
    case USIZE(_) => U64_MODULUS
  }

  /** `as_usize`: lossless up to 64 bits; a u128 is cut to its low 64 bits. */
  function AsUsize(d: DSB): (r: usize)
    ensures r == ValueOf(d) % U64_MODULUS
    ensures GetSize(d) <= 64 ==> r == ValueOf(d)
  {
    match d
    case Flag(f) => if f then 1 else 0
    case U8(b) => b
    case U16(h) => h
    case U32(w) => w
    case U64(x) => x
    case U128(q) => q % U64_MODULUS
    case USIZE(n) => n
  }

  /** r has the width a binary operator gives when a is its left operand: a's own, with usize reported as u64. */
  predicate SameWidthKind(r: DSB, a: DSB)
  {
    match a
    case Flag(_) => r.Flag?
    case U8(_) => r.U8?
    case U16(_) => r.U16?
    case U32(_) => r.U32?
    case U64(_) => r.U64?
    case U128(_) => r.U128?
    case USIZE(_) => r.U64?
  }

  /** The modulus a binary operator's result ends up reduced by: the width's own, capped at 2^64 by the usize detour. */
  function ResultModulus(a: DSB): (m: nat)
    ensures m > 0
  {
    if GetSize(a) <= 64 then Modulus(a) else U64_MODULUS
  }

  /**
   * r is what the integer `raw` becomes when computed on usize with 64-bit
   * wrap-around and re-tagged with a's width: a flag is true iff the wrapped
   * value is non-zero, any other width keeps the value modulo its size.
   */
  predicate WrapsTo(r: DSB, raw: int, a: DSB)
  {
    && SameWidthKind(r, a)
    && (a.Flag? ==> r == Flag(raw % U64_MODULUS != 0))
    && (!a.Flag? ==> ValueOf(r) == raw % ResultModulus(a))
  }

  /** Wrapping at 64 bits and then at the word's width is wrapping at the word's width. */
  lemma WrapTwice(raw: int, a: DSB)
    ensures (raw % U64_MODULUS) % ResultModulus(a) == raw % ResultModulus(a)
  {
    var m := ResultModulus(a);
    assert U64_MODULUS == m * (U64_MODULUS / m) by {
      Pow2Widths();
    }
    ModOfMod(raw, m, U64_MODULUS / m);
  }

  /** `from_usize_matching_size`: re-tag a usize with the width of `original`, truncating. */
  function FromUsizeMatchingSize(result: usize, original: DSB): (r: DSB)
    ensures WrapsTo(r, result, original)
    ensures GetSize(r) == GetSize(original)
  {
    var size := GetSize(original);
    if size == 1 then Flag(result != 0)
    else if size == 8 then U8(result % 0x100)
    else if size == 16 then U16(result % 0x1_0000)
    else if size == 32 then U32(result % 0x1_0000_0000)
    else if size == 64 then U64(result)
    else U128(result)
  }

  /** `from_cpu_bittage` with CPU_BITTAGE = 16: a usize cut to a 16-bit word. */
  function FromCpuBittage(value: usize): (r: DSB)
    ensures r.U16? && ValueOf(r) == value % 0x1_0000
  {
    U16(value % 0x1_0000)
  }

  /** `DSB::default()` with CPU_BITTAGE = 16: the 16-bit zero. */
  function DefaultDsb(): (r: DSB)
    ensures GetSize(r) == 16 && AsUsize(r) == 0
  {
    U16(0)
  }

  function Add(a: DSB, b: DSB): (r: DSB)
    ensures WrapsTo(r, AsUsize(a) + AsUsize(b), a)
  {
    WrapTwice(AsUsize(a) + AsUsize(b), a);
    FromUsizeMatchingSize((AsUsize(a) + AsUsize(b)) % U64_MODULUS, a)
  }

  function Sub(a: DSB, b: DSB): (r: DSB)
    ensures WrapsTo(r, AsUsize(a) - AsUsize(b), a)
  {
    WrapTwice(AsUsize(a) - AsUsize(b), a);
    FromUsizeMatchingSize((AsUsize(a) - AsUsize(b)) % U64_MODULUS, a)
  }

  function Mul(a: DSB, b: DSB): (r: DSB)
    ensures WrapsTo(r, AsUsize(a) * AsUsize(b), a)
  {
    WrapTwice(AsUsize(a) * AsUsize(b), a);
    FromUsizeMatchingSize((AsUsize(a) * AsUsize(b)) % U64_MODULUS, a)
  }

  /** Division by the zero word does not fail: it gives the zero of the dividend's width. */
  function Div(a: DSB, b: DSB): (r: DSB)
    ensures AsUsize(b) == 0 ==> WrapsTo(r, 0, a)
    ensures AsUsize(b) != 0 ==> WrapsTo(r, AsUsize(a) / AsUsize(b), a)
  {
    if AsUsize(b) == 0 then FromUsizeMatchingSize(0, a)
    else
      DivAtMost(AsUsize(a), AsUsize(b));
      FromUsizeMatchingSize(AsUsize(a) / AsUsize(b), a)
  }

  datatype BitOp = AndOp | OrOp | XorOp

  /** One binary digit of a bitwise operator. */
  function BitOf(op: BitOp, x: nat, y: nat): (r: nat)
    requires x < 2 && y < 2
    ensures r < 2
  {
    match op
    case AndOp => if x == 1 && y == 1 then 1 else 0
    case OrOp => if x == 1 || y == 1 then 1 else 0
    case XorOp => if x != y then 1 else 0
  }

  /** The bitwise operator applied to the low n binary digits of x and y. */
  function Bitwise(op: BitOp, x: nat, y: nat, n: nat): (r: nat)
    ensures r < Pow2(n)
  {
    if n == 0 then 0
    else BitOf(op, x % 2, y % 2) + 2 * Bitwise(op, x / 2, y / 2, n - 1)
  }

  /** `&`, `|`, `^` on the two usize images, re-tagged with the left operand's width. */
  function BitwiseWord(op: BitOp, a: DSB, b: DSB): (r: DSB)
    ensures WrapsTo(r, Bitwise(op, AsUsize(a), AsUsize(b), 64), a)
  {
    Pow2Widths();
    var raw := Bitwise(op, AsUsize(a), AsUsize(b), 64);
    WrapTwice(raw, a);
    FromUsizeMatchingSize(raw, a)
  }

  /** `&`: the digit-wise AND of the two usize images, wrapped into the left operand's width. */
  function BitAnd(a: DSB, b: DSB): (r: DSB)
    ensures WrapsTo(r, Bitwise(AndOp, AsUsize(a), AsUsize(b), 64), a)
  {
    BitwiseWord(AndOp, a, b)
  }

  /** `|`: the digit-wise OR of the two usize images, wrapped into the left operand's width. */
  function BitOr(a: DSB, b: DSB): (r: DSB)
    ensures WrapsTo(r, Bitwise(OrOp, AsUsize(a), AsUsize(b), 64), a)
  {
    BitwiseWord(OrOp, a, b)
  }

  /** `^`: the digit-wise XOR of the two usize images, wrapped into the left operand's width. */
  function BitXor(a: DSB, b: DSB): (r: DSB)
    ensures WrapsTo(r, Bitwise(XorOp, AsUsize(a), AsUsize(b), 64), a)
  {
    BitwiseWord(XorOp, a, b)
  }

  /** The shift count: the right operand cut to u32, then masked to 0..63 by usize's wrapping shift. */
  function ShiftCount(b: DSB): (k: nat)
    ensures k == AsUsize(b) % 64
  {
    (AsUsize(b) % 0x1_0000_0000) % 64
  }

  function Shl(a: DSB, b: DSB): (r: DSB)
    ensures WrapsTo(r, AsUsize(a) * Pow2(AsUsize(b) % 64), a)
  {
    var raw := AsUsize(a) * Pow2(ShiftCount(b));
    WrapTwice(raw, a);
    FromUsizeMatchingSize(raw % U64_MODULUS, a)
  }

  function Shr(a: DSB, b: DSB): (r: DSB)
    ensures WrapsTo(r, AsUsize(a) / Pow2(AsUsize(b) % 64), a)
  {
    DivAtMost(AsUsize(a), Pow2(ShiftCount(b)));
    FromUsizeMatchingSize(AsUsize(a) / Pow2(ShiftCount(b)), a)
  }

  /** NOT keeps the exact variant (usize stays usize) and flips every bit of it. */
  function Not(a: DSB): (r: DSB)
    ensures GetSize(r) == GetSize(a) && r.USIZE? == a.USIZE?
    ensures a.Flag? ==> r == Flag(!a.f)
    ensures !a.Flag? ==> ValueOf(r) == Modulus(a) - 1 - ValueOf(a)
  {
    match a
    case Flag(f) => Flag(!f)
    case U8(x) => U8(0xFF - x)
    case U16(x) => U16(0xFFFF - x)
    case U32(x) => U32(0xFFFF_FFFF - x)
    case U64(x) => U64(0xFFFF_FFFF_FFFF_FFFF - x)
    case U128(x) => U128(0xFFFF_FFFF_FFFF_FFFF_FFFF_FFFF_FFFF_FFFF - x)
    case USIZE(x) => USIZE(0xFFFF_FFFF_FFFF_FFFF - x)
  }
}
