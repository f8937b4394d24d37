/**
 * The `Byte` cell of src/types/impls.rs: one word, read and replaced in place.
 * Every operation reports the value before it (`previous`), the value after it
 * (`result`) and a carry that the live implementation always leaves false.
 * The lock around the value only serves concurrent access and is not modelled.
 */
module ByteCell {
  import opened Wrappers
  import opened Defs
  import opened Word
  import BitsConversion

  class Byte {
    var dsb: DSB

    /** `Byte::default()`: the CPU-width zero. */
    constructor Default()
      ensures dsb == DefaultDsb()
    {
      dsb := DefaultDsb();
    }

    constructor FromDsb(d: DSB)
      ensures dsb == d
    {
      dsb := d;
    }

    /** `From<Bits> for Byte`: the digits read as a number and cut to a CPU-width word. */
    constructor FromBits(bits: Bits)
      ensures dsb.U16? && ValueOf(dsb) == BitsConversion.BitsValue(bits.vec) % 0x1_0000
    {
      var d := BitsConversion.ToWord(bits);
      dsb := d;
    }

    method Read() returns (r: Result<DSB, RizeError>)
      ensures r == Ok(dsb)
    {
      r := Ok(dsb);
    }

    /**
     * Stores `data`. Only `previous` is filled in: `result` and `carry` keep
     * the defaults of ByteOpResult, the CPU-width zero and false.
     */
    method Write(data: DSB) returns (r: Result<ByteOpResult, RizeError>)
      modifies this
      ensures dsb == data
      ensures r == Ok(ByteOpResult(old(dsb), DefaultDsb(), false))
    {
      var prev := dsb;
      dsb := data;
      r := Ok(ByteOpResult(prev, DefaultDsb(), false));
    }

    /** The shared tail of the arithmetic operations: store `next`, report old and new value, no carry. */
    method Replace(next: DSB) returns (r: Result<ByteOpResult, RizeError>)
      modifies this
      ensures dsb == next
      ensures r == Ok(ByteOpResult(old(dsb), next, false))
    {
      var prev := dsb;
      dsb := next;
      r := Ok(ByteOpResult(prev, dsb, false));
    }

    method Add(data: DSB) returns (r: Result<ByteOpResult, RizeError>)
      modifies this
      ensures dsb == Word.Add(old(dsb), data)
      ensures r == Ok(ByteOpResult(old(dsb), dsb, false))
    {
      r := Replace(Word.Add(dsb, data));
    }

    method Sub(data: DSB) returns (r: Result<ByteOpResult, RizeError>)
      modifies this
      ensures dsb == Word.Sub(old(dsb), data)
      ensures r == Ok(ByteOpResult(old(dsb), dsb, false))
    {
      r := Replace(Word.Sub(dsb, data));
    }

    method Mul(data: DSB) returns (r: Result<ByteOpResult, RizeError>)
      modifies this
      ensures dsb == Word.Mul(old(dsb), data)
      ensures r == Ok(ByteOpResult(old(dsb), dsb, false))
    {
      r := Replace(Word.Mul(dsb, data));
    }

    /** Never fails: a zero divisor leaves the zero of the cell's width. */
    method Div(data: DSB) returns (r: Result<ByteOpResult, RizeError>)
      modifies this
      ensures dsb == Word.Div(old(dsb), data)
      ensures r == Ok(ByteOpResult(old(dsb), dsb, false))
    {
      r := Replace(Word.Div(dsb, data));
    }

    method BitAnd(data: DSB) returns (r: Result<ByteOpResult, RizeError>)
      modifies this
      ensures dsb == Word.BitAnd(old(dsb), data)
      ensures r == Ok(ByteOpResult(old(dsb), dsb, false))
    {
      r := Replace(Word.BitAnd(dsb, data));
    }

    method BitOr(data: DSB) returns (r: Result<ByteOpResult, RizeError>)
      modifies this
      ensures dsb == Word.BitOr(old(dsb), data)
      ensures r == Ok(ByteOpResult(old(dsb), dsb, false))
    {
      r := Replace(Word.BitOr(dsb, data));
    }

    method BitXor(data: DSB) returns (r: Result<ByteOpResult, RizeError>)
      modifies this
      ensures dsb == Word.BitXor(old(dsb), data)
      ensures r == Ok(ByteOpResult(old(dsb), dsb, false))
    {
      r := Replace(Word.BitXor(dsb, data));
    }

    method BitNot() returns (r: Result<ByteOpResult, RizeError>)
      modifies this
      ensures dsb == Word.Not(old(dsb))
      ensures r == Ok(ByteOpResult(old(dsb), dsb, false))
    {
      r := Replace(Word.Not(dsb));
    }

    method BitShl(data: DSB) returns (r: Result<ByteOpResult, RizeError>)
      modifies this
      ensures dsb == Word.Shl(old(dsb), data)
      ensures r == Ok(ByteOpResult(old(dsb), dsb, false))
    {
      r := Replace(Word.Shl(dsb, data));
    }

    method BitShr(data: DSB) returns (r: Result<ByteOpResult, RizeError>)
      modifies this
      ensures dsb == Word.Shr(old(dsb), data)
      ensures r == Ok(ByteOpResult(old(dsb), dsb, false))
    {
      r := Replace(Word.Shr(dsb, data));
    }
  }

  /** A write followed by a read gives back exactly the written word, and the write reports the old one. */
  method WriteThenRead(cell: Byte, data: DSB) returns (w: Result<ByteOpResult, RizeError>, r: Result<DSB, RizeError>)
    modifies cell
    ensures w.Ok? && w.value.previous == old(cell.dsb)
    ensures r == Ok(data)
  {
    w := cell.Write(data);
    r := cell.Read();
  }

  /** Adding to a 16-bit cell stays 16 bits wide and wraps modulo 2^16; the report holds both values. */
  method AddToWord(cell: Byte, data: DSB) returns (r: Result<ByteOpResult, RizeError>)
    requires cell.dsb.U16?
    modifies cell
    ensures cell.dsb.U16? && cell.dsb.h == (old(cell.dsb.h) + AsUsize(data)) % 0x1_0000
    ensures r.Ok? && r.value.previous == old(cell.dsb) && r.value.result == cell.dsb && !r.value.carry
  {
    r := cell.Add(data);
  }
}
