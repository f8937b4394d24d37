/**
 * The `Bits` conversions of src/types/impls.rs: a word unpacked into its
 * binary digits (most significant first) and a digit sequence read back as a
 * usize. Both are loops over mutable accumulators.
 */
module BitsConversion {
  import opened Defs
  import opened Arith
  import opened Word

  /** Binary digit i of x, counting from the least significant. */
  function BitAt(x: nat, i: nat): u8
  {
    (x / Pow2(i)) % 2
  }

  /** The low w digits of x, least significant first. */
  function LsbFirst(x: nat, w: nat): seq<u8>
  {
    seq(w, k requires 0 <= k < w => BitAt(x, k))
  }

  /** The low w digits of x, most significant first. */
  function MsbFirst(x: nat, w: nat): seq<u8>
  {
    seq(w, k requires 0 <= k < w => BitAt(x, w - 1 - k))
  }

  function Reversed(s: seq<u8>): seq<u8>
  {
    seq(|s|, k requires 0 <= k < |s| => s[|s| - 1 - k])
  }

  /** Only an entry equal to 1 counts as a set digit. */
  function Digit(b: u8): nat
  {
    if b == 1 then 1 else 0
  }

  /** The number a digit sequence spells, most significant digit first. */
  function BitsValue(s: seq<u8>): (v: nat)
    ensures v < Pow2(|s|)
  {
    if s == [] then 0
    else Digit(s[0]) * Pow2(|s| - 1) + BitsValue(s[1..])
  }

  /** Spelling out the low w digits of x and reading them back gives x modulo 2^w. */
  lemma {:induction false} MsbFirstValue(x: nat, w: nat)
    ensures BitsValue(MsbFirst(x, w)) == x % Pow2(w)
  {
    if w > 0 {
      var s := MsbFirst(x, w);
      var p := Pow2(w - 1);
      assert s[1..] == MsbFirst(x, w - 1);
      assert s[0] == BitAt(x, w - 1);
      assert BitsValue(s) == ((x / p) % 2) * p + BitsValue(s[1..]);
      MsbFirstValue(x, w - 1);
      ModDoubleTop(x, p);
    }
  }

  lemma LsbFirstSnoc(x: nat, i: nat)
    ensures LsbFirst(x, i + 1) == LsbFirst(x, i) + [(x / Pow2(i)) % 2]
  {
    var a, b := LsbFirst(x, i + 1), LsbFirst(x, i) + [(x / Pow2(i)) % 2];
    assert |a| == |b|;
    forall k | 0 <= k < |a|
      ensures a[k] == b[k]
    {
    }
  }

  lemma ReversedLsbFirst(x: nat, w: nat)
    ensures Reversed(LsbFirst(x, w)) == MsbFirst(x, w)
  {
  }

  /** A suffix's value: its first digit at its own place plus the value of the rest. */
  lemma SuffixValue(v: seq<u8>, i: nat)
    requires i < |v|
    ensures BitsValue(v[i..]) == Digit(v[i]) * Pow2(|v| - 1 - i) + BitsValue(v[i + 1..])
  {
    assert v[i..][1..] == v[i + 1..];
  }

  /**
   * `Bits::from(DSB)`: push the low digit and shift right, once per bit of
   * the width (64 for usize), then reverse; a flag is the single digit 0 or 1.
   */
  method FromDsb(d: DSB) returns (bits: Bits)
    ensures |bits.vec| == GetSize(d)
    ensures forall k :: 0 <= k < |bits.vec| ==> bits.vec[k] <= 1
    ensures bits.vec == MsbFirst(ValueOf(d), GetSize(d))
  {
    if d.Flag? {
      bits := Bits([if d.f then 1 else 0]);
      assert MsbFirst(ValueOf(d), 1) == [BitAt(ValueOf(d), 0)];
      return;
    }
    var x := ValueOf(d);
    var w := GetSize(d);
    var n := x;
    var v: seq<u8> := [];
    var i := 0;
    while i < w
      invariant 0 <= i <= w
      invariant n == x / Pow2(i)
      invariant v == LsbFirst(x, i)
    {
      LsbFirstSnoc(x, i);
      v := v + [n % 2];
      n := n / 2;
      DivPow2Step(x, i);
      i := i + 1;
    }
    bits := Bits(Reversed(v));
    ReversedLsbFirst(x, w);
  }

  /**
   * `Bits::as_decimal`: walk the digits from the last one, adding the running
   * power of two for every digit equal to 1. The usize accumulators wrap at
   * 2^64 (release-build arithmetic).
   */
  method AsDecimal(bits: Bits) returns (decimal: usize)
    ensures decimal == BitsValue(bits.vec) % U64_MODULUS
  {
    var v := bits.vec;
    decimal := 0;
    var power: usize := 1;
    var i := |v|;
    while i > 0
      invariant 0 <= i <= |v|
      invariant power == Pow2(|v| - i) % U64_MODULUS
      invariant decimal == BitsValue(v[i..]) % U64_MODULUS
    {
      i := i - 1;
      ghost var p := Pow2(|v| - 1 - i);
      SuffixValue(v, i);
      if v[i] == 1 {
        WrapAdd(BitsValue(v[i + 1..]), p, U64_MODULUS);
        decimal := (decimal + power) % U64_MODULUS;
      }
      DoubleMod(p, U64_MODULUS);
      power := (power * 2) % U64_MODULUS;
    }
  }

  /** Unpacking a word and reading the digits back gives its usize image, for every width. */
  lemma DecimalOfDigits(d: DSB)
    ensures BitsValue(MsbFirst(ValueOf(d), GetSize(d))) % U64_MODULUS == AsUsize(d)
  {
    var x, w := ValueOf(d), GetSize(d);
    MsbFirstValue(x, w);
    assert x < Modulus(d);
    DivModUnique(x, Pow2(w), 0, x);
  }

  /** `Bits::from(d).as_decimal()` is `d.as_usize()`. */
  method DecimalRoundTrip(d: DSB) returns (n: usize)
    ensures n == AsUsize(d)
  {
    var bits := FromDsb(d);
    n := AsDecimal(bits);
    DecimalOfDigits(d);
  }

  /** `From<Bits> for DSB`: the decimal value cut to a CPU-width (16-bit) word. */
  method ToWord(bits: Bits) returns (r: DSB)
    ensures r.U16? && ValueOf(r) == BitsValue(bits.vec) % 0x1_0000
  {
    var decimal := AsDecimal(bits);
    ModOfMod(BitsValue(bits.vec), 0x1_0000, 0x1_0000_0000_0000);
    r := U16(decimal % 0x1_0000);
  }

  /** A 16-bit word survives the trip to digits and back. */
  method WordRoundTrip(h: u16) returns (r: DSB)
    ensures r == U16(h)
  {
    var bits := FromDsb(U16(h));
    MsbFirstValue(h, 16);
    Pow2Widths();
    DivModUnique(h, 0x1_0000, 0, h);
    assert BitsValue(bits.vec) == h;
    r := ToWord(bits);
  }
}
