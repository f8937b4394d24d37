/**
 * The opcode semantics that src/interpreter/collection/opcode_fn.rs keeps as
 * commented-out reference code, on 16-bit register cells. They are not
 * compiled into the program; they are its only statement of what the
 * arithmetic, logic, shift and pixel-write instructions do.
 *
 * Each operation reads its operands, checks its operand tags, picks a
 * destination register, writes the four flag registers one after another
 * and finally the destination. A failing step returns its error at once, so
 * the flag writes made before it stay in place. The outcome of an operation
 * is the register file it leaves behind together with its status.
 */
module ReferenceOps {
  import opened Wrappers
  import opened Defs
  import opened Arith
  import opened Constants
  import RegisterFile
  import Operands
  import Word
  import Decode
  import BitRegisters
  import DisplayStore

  /** The register file: the 16-bit word of each stored register. */
  type Regs = map<string, u16>

  /** The four status flags an arithmetic instruction computes. */
  datatype Flags = Flags(zero: bool, negative: bool, carry: bool, overflow: bool)

  /** The register file an operation leaves and what it returns. */
  datatype Outcome = Outcome(regs: Regs, status: Result<(), RizeError>)

  datatype ArithKind = AddOp | SubOp | MulOp | DivOp

  /** The stored key a name reaches through the register file's lookup, if any. */
  function Locate(regs: Regs, name: string): (k: Option<string>)
    ensures k.Some? <==> name != [] && RegisterFile.RegisterKey(name).value in regs
    ensures k.Some? ==> k.value == RegisterFile.RegisterKey(name).value && k.value in regs
  {
    match RegisterFile.RegisterKey(name)
    case None => Option.None
    case Some(key) => if key in regs then Some(key) else Option.None
  }

  function MissingRegister(name: string): RizeError
  {
    RegisterRead("Cannot get a register named \"" + name + "\"")
  }

  /** `Memory::new()`, the empty memory ADD, AND, OR and XOR read their operands from. */
  function FreshMemory(): (m: seq<u16>)
    ensures |m| == 2048 && forall a :: 0 <= a < |m| ==> m[a] == 0
  {
    BitRegisters.NewMemory().bytes
  }

  /** `get_operand_value` on 16-bit cells and a memory of 16-bit words. */
  function Operand(regs: Regs, memory: seq<u16>, arg: ArgType): (r: Result<u16, RizeError>)
    ensures r.Ok? <==> (arg.Register? && Locate(regs, arg.name).Some?) || arg.Immediate?
                       || (arg.MemAddr? && arg.addr < |memory|)
    ensures arg.Register? && r.Ok? ==> r.value == regs[Locate(regs, arg.name).value]
    ensures arg.Immediate? && arg.imm < 0x1_0000 ==> r == Ok(arg.imm)
    ensures arg.MemAddr? && r.Ok? ==> r.value == memory[arg.addr]
  {
    match arg
    case Register(name) =>
      (match Locate(regs, name)
       case Some(k) => Ok(regs[k])
       case None => Err(MissingRegister(name)))
    case Immediate(imm) => Ok(imm % 0x1_0000)
    case MemAddr(addr) =>
      if addr < |memory| then Ok(memory[addr])
      else Err(MemoryRead("No byte found at address " + Decode.DecimalString(addr)))
    case Symbol(sym) => Err(RizeError.Decode("Cannot use symbol '." + sym + "' as an operand value."))
    case None => Err(RizeError.Decode(Operands.INVALID_OPERAND_MESSAGE))
    case Error => Err(RizeError.Decode(Operands.INVALID_OPERAND_MESSAGE))
  }

  /** The 16-bit register file seen as word cells. */
  function Widen(regs: Regs): map<string, DSB>
  {
    map k | k in regs :: U16(regs[k])
  }

  /** The 16-bit memory seen as the address table of word cells. */
  function Cells(memory: seq<u16>): Operands.MemoryCells
  {
    map a: usize | a < |memory| :: U16(memory[a])
  }

  /**
   * The reference operand rules are the live `get_operand_value` on a
   * register file and memory of 16-bit cells: same value, same error.
   */
  lemma OperandAgreesWithLive(regs: Regs, memory: seq<u16>, arg: ArgType)
    ensures Operands.GetOperandValue(Widen(regs), Cells(memory), arg)
            == (match Operand(regs, memory, arg) case Ok(v) => Ok(U16(v)) case Err(e) => Err(e))
  {
    if arg.Register? {
      RegisterFile.LookupFinds(Widen(regs), arg.name);
    }
  }

  /**
   * `determine_destination_register_mut`: the name of the register that
   * receives the result — arg3 when it names a register, arg1 when arg3 is
   * omitted or None (arg1 must then be a register); the named register must
   * exist.
   */
  function Destination(regs: Regs, arg1: ArgType, arg3: Option<ArgType>): (r: Result<string, RizeError>)
    ensures r.Ok? ==> Locate(regs, r.value).Some?
    ensures r.Ok? && arg3.Some? && arg3.value.Register? ==> r.value == arg3.value.name
    ensures r.Ok? && !(arg3.Some? && arg3.value.Register?) ==> arg1.Register? && r.value == arg1.name
    ensures arg3.Some? && !arg3.value.Register? && !arg3.value.None? ==>
              r == Err(Execute("Third argument (destination) must be a Register or omitted."))
    ensures (arg3.None? || arg3 == Some(ArgType.None)) && !arg1.Register? ==>
              r == Err(Execute("Destination (arg1) must be a Register when arg3 is omitted."))
    ensures r.Err? && arg3.Some? && arg3.value.Register? ==> r == Err(MissingRegister(arg3.value.name))
    ensures arg3.Some? && arg3.value.Register? ==>
              r == (if Locate(regs, arg3.value.name).Some? then Ok(arg3.value.name)
                    else Err(MissingRegister(arg3.value.name)))
    ensures (arg3.None? || arg3 == Some(ArgType.None)) && arg1.Register? ==>
              r == (if Locate(regs, arg1.name).Some? then Ok(arg1.name) else Err(MissingRegister(arg1.name)))
  {
    match arg3
    case Some(Register(name3)) =>
      if Locate(regs, name3).Some? then Ok(name3) else Err(MissingRegister(name3))
    case Some(a) =>
      if a.None? then DestinationFromArg1(regs, arg1)
      else Err(Execute("Third argument (destination) must be a Register or omitted."))
    case None => DestinationFromArg1(regs, arg1)
  }

  function DestinationFromArg1(regs: Regs, arg1: ArgType): Result<string, RizeError>
  {
    match arg1
    case Register(name1) =>
      if Locate(regs, name1).Some? then Ok(name1) else Err(MissingRegister(name1))
    case _ => Err(Execute("Destination (arg1) must be a Register when arg3 is omitted."))
  }

  // ---------------------------------------------------------------------
  // Flags and results

  /** Bit 15 of a word: `(v >> 15) & 1`. */
  function SignBit(v: u16): (b: nat)
    ensures b == (if v >= 0x8000 then 1 else 0)
  {
    (v / 0x8000) % 2
  }

  /** A word read as a two's-complement 16-bit integer (`v as i16`). */
  function Signed(v: u16): (s: int)
    ensures -0x8000 <= s < 0x8000
    ensures s < 0 <==> v >= 0x8000
    ensures s % 0x1_0000 == v
  {
    if v < 0x8000 then v else v - 0x1_0000
  }

  predicate InI16(x: int)
  {
    -0x8000 <= x < 0x8000
  }

  /** Signed division truncating toward zero, as on Rust's signed integers. */
  function TruncDiv(a: int, b: int): int
    requires b != 0
  {
    var q := Abs(a) / Abs(b);
    if (a < 0) == (b < 0) then q else -q
  }

  function Abs(x: int): nat
  {
    if x < 0 then -x else x
  }

  function Mnemonic(kind: ArithKind): string
  {
    match kind
    case AddOp => "ADD"
    case SubOp => "SUB"
    case MulOp => "MUL"
    case DivOp => "DIV"
  }

  /** The wrapping 16-bit result: `wrapping_add`, `wrapping_sub`, `wrapping_mul`, or the quotient. */
  function ArithResult(kind: ArithKind, v1: u16, v2: u16): (r: u16)
    requires kind == DivOp ==> v2 != 0
    ensures kind == AddOp ==> r == v1 + v2 || r + 0x1_0000 == v1 + v2
    ensures kind == SubOp ==> r == v1 - v2 || r == v1 - v2 + 0x1_0000
    ensures kind == MulOp ==> r <= v1 * v2 && (v1 * v2 - r) % 0x1_0000 == 0
    ensures kind == DivOp ==> r * v2 <= v1 < r * v2 + v2
  {
    match kind
    case AddOp => (WrapOnce(v1 + v2); (v1 + v2) % 0x1_0000)
    case SubOp => (WrapOnce(v1 - v2); (v1 - v2) % 0x1_0000)
    case MulOp => (ModBelow(v1 * v2, 0x1_0000); (v1 * v2) % 0x1_0000)
    case DivOp => DivAtMost(v1, v2); DivBracket(v1, v2); v1 / v2
  }

  /** A value within one 16-bit range of [0, 2^16) wraps by adding or subtracting 2^16 at most once. */
  lemma WrapOnce(x: int)
    requires -0x1_0000 <= x < 2 * 0x1_0000
    ensures var r := x % 0x1_0000; r == x || r + 0x1_0000 == x || r == x + 0x1_0000
  {
    if x < 0 {
      DivModUnique(x, 0x1_0000, -1, x + 0x1_0000);
    } else if x < 0x1_0000 {
      DivModUnique(x, 0x1_0000, 0, x);
    } else {
      DivModUnique(x, 0x1_0000, 1, x - 0x1_0000);
    }
  }

  /**
   * The flags: zero when the result is 0; negative from bit 15 of the
   * result; carry on unsigned carry (ADD, MUL), borrow (SUB) or a remainder
   * (DIV); overflow by the operation's two's-complement rule.
   */
  function ArithFlags(kind: ArithKind, v1: u16, v2: u16): (f: Flags)
    requires kind == DivOp ==> v2 != 0
    ensures f.zero <==> ArithResult(kind, v1, v2) == 0
    ensures f.negative <==> ArithResult(kind, v1, v2) >= 0x8000
    ensures kind == AddOp ==> (f.carry <==> ArithResult(kind, v1, v2) != v1 + v2)
    ensures kind == SubOp ==> (f.carry <==> ArithResult(kind, v1, v2) != v1 - v2)
    ensures kind == MulOp ==> (f.carry <==> ArithResult(kind, v1, v2) != v1 * v2)
    ensures kind == DivOp ==> (f.carry <==> ArithResult(kind, v1, v2) * v2 != v1)
  {
    var r := ArithResult(kind, v1, v2);
    var carry := match kind
      case AddOp => v1 + v2 > 0xFFFF
      case SubOp => v1 < v2
      case MulOp => (ModBelow(v1 * v2, 0x1_0000); v1 * v2 > 0xFFFF)
      case DivOp => (DivBracket(v1, v2); v1 % v2 != 0);
    var overflow := match kind
      case AddOp => SignBit(v1) == SignBit(v2) && SignBit(r) != SignBit(v1)
      case SubOp => SignBit(v1) != SignBit(v2) && SignBit(r) != SignBit(v1)
      case MulOp => !InI16(Signed(v1) * Signed(v2))
      case DivOp => Signed(v1) == -0x8000 && Signed(v2) == -1;
    Flags(r == 0, (r / 0x8000) % 2 == 1, carry, overflow)
  }

  /** The word `write_bool` leaves in a flag register. */
  function FlagWord(b: bool): u16
  {
    if b then 1 else 0
  }

  /** Writes one flag: the register must exist. */
  function WriteFlag(regs: Regs, name: string, b: bool): (r: Result<Regs, RizeError>)
    ensures r.Ok? <==> Locate(regs, name).Some?
    ensures r.Ok? ==> r.value == regs[Locate(regs, name).value := FlagWord(b)]
    ensures r.Ok? ==> r.value.Keys == regs.Keys
    ensures r.Err? ==> r.error == RegisterRead("Flag register '" + name + "' not found")
  {
    match Locate(regs, name)
    case None => Err(RegisterRead("Flag register '" + name + "' not found"))
    case Some(k) => Ok(regs[k := FlagWord(b)])
  }

  /** The flag writes in source order: zero, negative, carry, overflow; the first missing register stops them. */
  function SetFlags(regs: Regs, names: RegisterNames, f: Flags): (o: Outcome)
    ensures o.regs.Keys == regs.Keys
    ensures o.status.Err? ==> o.status.error.RegisterRead?
  {
    match WriteFlag(regs, names.zero, f.zero)
    case Err(e) => Outcome(regs, Err(e))
    case Ok(r1) =>
      match WriteFlag(r1, names.negative, f.negative)
      case Err(e) => Outcome(r1, Err(e))
      case Ok(r2) =>
        match WriteFlag(r2, names.carry, f.carry)
        case Err(e) => Outcome(r2, Err(e))
        case Ok(r3) =>
          match WriteFlag(r3, names.overflow, f.overflow)
          case Err(e) => Outcome(r3, Err(e))
          case Ok(r4) => Outcome(r4, Ok(()))
  }

  /** The flag writes followed by the write of the result into the destination. */
  function Commit(regs: Regs, names: RegisterNames, f: Flags, dest: string, result: u16): (o: Outcome)
    ensures o.regs.Keys == regs.Keys
    ensures o.status.Ok? ==> Locate(regs, dest).Some? && o.regs[Locate(regs, dest).value] == result
  {
    var o := SetFlags(regs, names, f);
    if o.status.Err? then o
    else
      match Locate(o.regs, dest)
      case None => Outcome(o.regs, Err(MissingRegister(dest)))
      case Some(k) => Outcome(o.regs[k := result], Ok(()))
  }

  /** ADD reads its operands from a fresh memory; SUB, MUL and DIV from the machine's. */
  function OperandMemory(kind: ArithKind, memory: seq<u16>): seq<u16>
  {
    if kind == AddOp then FreshMemory() else memory
  }

  /**
   * What an arithmetic instruction decides before writing anything: the
   * result, the flags and the destination name, or the first error among
   * operand resolution, the register check on arg1, division by zero and
   * the destination choice.
   */
  function ArithPlan(kind: ArithKind, regs: Regs, memory: seq<u16>, arg1: ArgType, arg2: ArgType, arg3: Option<ArgType>)
    : (r: Result<(u16, Flags, string), RizeError>)
    ensures var mem := OperandMemory(kind, memory);
            r.Ok? ==>
              && arg1.Register? && Operand(regs, mem, arg1).Ok? && Operand(regs, mem, arg2).Ok?
              && (kind == DivOp ==> Operand(regs, mem, arg2).value != 0)
              && r.value.0 == ArithResult(kind, Operand(regs, mem, arg1).value, Operand(regs, mem, arg2).value)
              && r.value.1 == ArithFlags(kind, Operand(regs, mem, arg1).value, Operand(regs, mem, arg2).value)
              && Destination(regs, arg1, arg3) == Ok(r.value.2)
    ensures var mem := OperandMemory(kind, memory);
            Operand(regs, mem, arg1).Ok? && Operand(regs, mem, arg2).Ok? && !arg1.Register? ==>
              r == Err(Execute(Mnemonic(kind) + " requires the first argument (arg1) to be a register."))
    ensures var mem := OperandMemory(kind, memory);
            kind == DivOp && arg1.Register? && Operand(regs, mem, arg1).Ok? && Operand(regs, mem, arg2) == Ok(0) ==>
              r == Err(Execute("Division by zero"))
    ensures var mem := OperandMemory(kind, memory);
            arg1.Register? && Operand(regs, mem, arg1).Ok? && Operand(regs, mem, arg2).Ok?
            && !(kind == DivOp && Operand(regs, mem, arg2).value == 0) ==>
              (r.Ok? <==> Destination(regs, arg1, arg3).Ok?)
  {
    var mem := OperandMemory(kind, memory);
    match Operand(regs, mem, arg1)
    case Err(e) => Err(e)
    case Ok(v1) =>
      match Operand(regs, mem, arg2)
      case Err(e) => Err(e)
      case Ok(v2) =>
        if !arg1.Register? then Err(Execute(Mnemonic(kind) + " requires the first argument (arg1) to be a register."))
        else if kind == DivOp && v2 == 0 then Err(Execute("Division by zero"))
        else
          match Destination(regs, arg1, arg3)
          case Err(e) => Err(e)
          case Ok(dest) => Ok((ArithResult(kind, v1, v2), ArithFlags(kind, v1, v2), dest))
  }

  /** `add`, `sub`, `mul`, `div`. */
  function Arithmetic(kind: ArithKind, regs: Regs, memory: seq<u16>, names: RegisterNames,
                      arg1: ArgType, arg2: ArgType, arg3: Option<ArgType>): (o: Outcome)
    ensures o.regs.Keys == regs.Keys
    ensures var plan := ArithPlan(kind, regs, memory, arg1, arg2, arg3);
            plan.Err? ==> o == Outcome(regs, Err(plan.error))
    ensures var plan := ArithPlan(kind, regs, memory, arg1, arg2, arg3);
            o.status.Ok? ==> plan.Ok? && o.regs[Locate(regs, plan.value.2).value] == plan.value.0
  {
    match ArithPlan(kind, regs, memory, arg1, arg2, arg3)
    case Err(e) => Outcome(regs, Err(e))
    case Ok((result, f, dest)) => Commit(regs, names, f, dest, result)
  }

  function LogicMnemonic(op: Word.BitOp): string
  {
    match op
    case AndOp => "AND"
    case OrOp => "OR"
    case XorOp => "XOR"
  }

  /** `and`, `or`, `xor`: both operands must be registers; no flag is written. */
  function Logic(op: Word.BitOp, regs: Regs, arg1: ArgType, arg2: ArgType, arg3: Option<ArgType>): (o: Outcome)
    ensures o.regs.Keys == regs.Keys
    ensures o.status.Err? ==> o.regs == regs
    ensures o.status.Ok? ==> arg1.Register? && arg2.Register?
    ensures o.status.Ok? ==> LogicPlan(op, regs, arg1, arg2, arg3).Ok?
    ensures o.status.Ok? && LogicPlan(op, regs, arg1, arg2, arg3).Ok? ==>
            var k := Locate(regs, LogicPlan(op, regs, arg1, arg2, arg3).value.1).value;
            forall j :: j in regs && j != k ==> o.regs[j] == regs[j]
  {
    match LogicPlan(op, regs, arg1, arg2, arg3)
    case Err(e) => Outcome(regs, Err(e))
    case Ok((result, dest)) => Outcome(regs[Locate(regs, dest).value := result], Ok(()))
  }

  /**
   * The checks of `and`, `or` and `xor` before anything is written, and
   * the word and destination they produce: both operands are read (from a
   * fresh memory), both must be registers, and the destination must exist.
   */
  function LogicPlan(op: Word.BitOp, regs: Regs, arg1: ArgType, arg2: ArgType, arg3: Option<ArgType>)
    : (r: Result<(u16, string), RizeError>)
    ensures r.Ok? ==> Locate(regs, r.value.1).Some?
  {
    var memory := FreshMemory();
    match Operand(regs, memory, arg1)
    case Err(e) => Err(e)
    case Ok(v1) =>
      match Operand(regs, memory, arg2)
      case Err(e) => Err(e)
      case Ok(v2) =>
        if !arg1.Register? || !arg2.Register? then
          Err(Execute(LogicMnemonic(op) + " requires register operands (arg1, arg2)."))
        else
          match Destination(regs, arg1, arg3)
          case Err(e) => Err(e)
          case Ok(dest) => Ok((Bitwise16(op, v1, v2), dest))
  }

  /** `&`, `|` or `^` on two 16-bit words. */
  function Bitwise16(op: Word.BitOp, v1: u16, v2: u16): u16
  {
    Pow2Widths();
    Word.Bitwise(op, v1, v2, 16)
  }

  /** `not`: the register operand's word with every bit flipped. */
  function Not(regs: Regs, arg1: ArgType): (o: Outcome)
    ensures o.regs.Keys == regs.Keys
    ensures o.status.Err? ==> o.regs == regs
    ensures o.status.Ok? <==> arg1.Register? && Locate(regs, arg1.name).Some?
    ensures o.status.Ok? ==> var k := Locate(regs, arg1.name).value;
            && (o.regs[k] as int) + (regs[k] as int) == 0xFFFF
            && forall j :: j in regs && j != k ==> o.regs[j] == regs[j]
  {
    match arg1
    case Register(name) =>
      (match Locate(regs, name)
       case None => Outcome(regs, Err(MissingRegister(name)))
       case Some(k) => Outcome(regs[k := 0xFFFF - regs[k]], Ok(())))
    case _ => Outcome(regs, Err(Execute("NOT requires a Register operand (arg1).")))
  }

  /**
   * `shl` (left) and `shr`: the register operand shifted by the immediate
   * amount, or by 1 when the amount is omitted. The amount is taken modulo
   * 16, as a release build's `<<` and `>>` on u16 do.
   */
  function Shift(left: bool, regs: Regs, arg1: ArgType, arg2: ArgType): (o: Outcome)
    ensures o.regs.Keys == regs.Keys
    ensures o.status.Err? ==> o.regs == regs
    ensures o.status.Ok? <==> arg1.Register? && (arg2.Immediate? || arg2.None?) && Locate(regs, arg1.name).Some?
    ensures o.status.Ok? ==> var k := Locate(regs, arg1.name).value;
            forall j :: j in regs && j != k ==> o.regs[j] == regs[j]
  {
    var mnemonic := if left then "SHL" else "SHR";
    match arg1
    case Register(name) =>
      (match ShiftAmount(arg2, mnemonic)
       case Err(e) => Outcome(regs, Err(e))
       case Ok(n) =>
         match Locate(regs, name)
         case None => Outcome(regs, Err(MissingRegister(name)))
         case Some(k) => Outcome(regs[k := ShiftWord(left, regs[k], n)], Ok(())))
    case _ => Outcome(regs, Err(Execute(mnemonic + " target (arg1) must be a Register.")))
  }

  /** The shift amount: an immediate's value, 1 when omitted; any other operand is an error. */
  function ShiftAmount(arg2: ArgType, mnemonic: string): (r: Result<usize, RizeError>)
    ensures r.Ok? <==> arg2.Immediate? || arg2.None?
    ensures arg2.Immediate? ==> r == Ok(arg2.imm)
    ensures arg2.None? ==> r == Ok(1)
    ensures r.Err? ==> r.error.Execute?
  {
    match arg2
    case Immediate(imm) => Ok(imm)
    case None => Ok(1)
    case _ => Err(Execute(mnemonic + " amount (arg2) must be Immediate or omitted."))
  }

  /** A shift by `n` moves the bits by n mod 16: a multiple of 16 changes nothing, and a right shift divides. */
  function ShiftWord(left: bool, v: u16, n: nat): (r: u16)
    ensures n % 16 == 0 ==> r == v
    ensures !left ==> r * Pow2(n % 16) <= v < r * Pow2(n % 16) + Pow2(n % 16)
  {
    Pow2Widths();
    if left then (v * Pow2(n % 16)) % 0x1_0000
    else (DivAtMost(v, Pow2(n % 16)); DivBracket(v, Pow2(n % 16)); v / Pow2(n % 16))
  }

  /**
   * `wdm`: three operands become a pixel write — the high and low bytes of
   * the first are red and green, of the second blue and alpha, of the third
   * the x and y coordinates.
   */
  function WdmPixel(regs: Regs, memory: seq<u16>, arg1: ArgType, arg2: ArgType, arg3: ArgType)
    : (r: Result<(u8, u8, DisplayStore.Color), RizeError>)
    ensures r.Ok? <==> Operand(regs, memory, arg1).Ok? && Operand(regs, memory, arg2).Ok? && Operand(regs, memory, arg3).Ok?
    ensures r.Ok? ==> r.value.2.alpha == Operand(regs, memory, arg2).value % 0x100
  {
    match Operand(regs, memory, arg1)
    case Err(e) => Err(e)
    case Ok(v1) =>
      match Operand(regs, memory, arg2)
      case Err(e) => Err(e)
      case Ok(v2) =>
        match Operand(regs, memory, arg3)
        case Err(e) => Err(e)
        case Ok(v3) =>
          Ok((v3 / 0x100, v3 % 0x100, DisplayStore.Color(v1 / 0x100, v1 % 0x100, v2 / 0x100, v2 % 0x100)))
  }
}
