/**
 * The data declarations of src/types/defs.rs: the width-tagged word (DSB), the
 * result of a cell operation, the error kinds, the opcode and operand tags and
 * the program state.
 */
module Defs {
  import opened Wrappers

  type u8 = x: int | 0 <= x < 0x100
  type u16 = x: int | 0 <= x < 0x1_0000
  type u32 = x: int | 0 <= x < 0x1_0000_0000
  type u64 = x: int | 0 <= x < 0x1_0000_0000_0000_0000
  type u128 = x: int | 0 <= x < 0x1_0000_0000_0000_0000_0000_0000_0000_0000
  /** The host word; the model takes a 64-bit target. */
  type usize = u64

  /** "Dynamically Sized Byte": one unsigned value tagged with its width. */
  datatype DSB =
    | Flag(f: bool)
    | U8(b: u8)
    | U16(h: u16)
    | U32(w: u32)
    | U64(d: u64)
    | U128(q: u128)
    | USIZE(n: usize)

  /** A sequence of binary digits, most significant first. */
  datatype Bits = Bits(vec: seq<u8>)

  /**
   * What a cell operation reports: the value before the operation, the
   * numeric result, and whether an unsigned over- or underflow happened.
   */
  datatype ByteOpResult = ByteOpResult(previous: DSB, result: DSB, carry: bool)

  /** The eight error kinds; each carries a descriptive message. */
  datatype RizeError =
    | Fetch(message: string)
    | Decode(message: string)
    | Execute(message: string)
    | Display(message: string)
    | MemoryRead(message: string)
    | MemoryWrite(message: string)
    | RegisterRead(message: string)
    | RegisterWrite(message: string)

  datatype OpCode =
    | None
    | LD | ST | SWP | MOV
    | ADD | SUB | MUL | DIV
    | NOT | AND | OR | XOR | SHL | SHR
    | HALT | NOP | JMP | JIZ | JIN | WDM

  /** Classification of one operand token. */
  datatype ArgType =
    | None
    | Error
    | Register(name: string)
    | MemAddr(addr: usize)
    | Immediate(imm: usize)
    | Symbol(sym: string)

  /** One operand slot: its tag, and the value Decode resolves for it (absent until then). */
  datatype ProgramArg = ProgramArg(value: Option<DSB>, arg_type: ArgType)

  /**
   * The loaded program: its text, the label table (label name to the line
   * where it is defined), the last fetched line and the decoded instruction.
   */
  datatype ActiveProgram = ActiveProgram(
    contents: string,
    symbols: map<string, nat>,
    line: string,
    opcode: OpCode,
    arg1: ProgramArg,
    arg2: ProgramArg,
    arg3: ProgramArg)

  /** The derived defaults: an operand slot with no value and tag None. */
  function DefaultProgramArg(): ProgramArg
  {
    ProgramArg(Option.None, ArgType.None)
  }

  /** The derived default program: empty text, no labels, opcode None, empty operand slots. */
  function DefaultActiveProgram(): ActiveProgram
  {
    ActiveProgram([], map[], [], OpCode.None, DefaultProgramArg(), DefaultProgramArg(), DefaultProgramArg())
  }
}
