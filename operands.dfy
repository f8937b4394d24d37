/**
 * Operand resolution of src/interpreter/collection/opcode_fn.rs
 * (`get_operand_value`): an operand tag becomes the word it denotes, or a
 * typed error. Registers are read through the register file's name lookup,
 * memory through its address table; nothing is written.
 */
module Operands {
  import opened Wrappers
  import opened Defs
  import RegisterFile
  import Decode
  import Text

  /** The memory's address table: the word held by the cell at each stored address. */
  type MemoryCells = map<usize, DSB>

  const INVALID_OPERAND_MESSAGE: string := "Invalid/None ArgType encountered where value operand expected."

  function GetOperandValue(registers: map<string, DSB>, memory: MemoryCells, arg: ArgType): (r: Result<DSB, RizeError>)
    ensures arg.Register? ==>
              && (r.Ok? <==> RegisterFile.Lookup(registers, arg.name).Some?)
              && (r.Ok? ==> r.value == RegisterFile.Lookup(registers, arg.name).value)
              && (r.Err? ==> r.error == RegisterRead("Cannot get a register named \"" + arg.name + "\""))
    ensures arg.Immediate? ==> r == Ok(U16(arg.imm % 0x1_0000))
    ensures arg.MemAddr? ==>
              && (r.Ok? <==> arg.addr in memory)
              && (r.Ok? ==> r.value == memory[arg.addr])
              && (r.Err? ==> r.error.MemoryRead?)
    ensures arg.Symbol? ==> r == Err(RizeError.Decode("Cannot use symbol '." + arg.sym + "' as an operand value."))
    ensures arg.None? || arg.Error? ==> r == Err(RizeError.Decode(INVALID_OPERAND_MESSAGE))
  {
    match arg
    case Register(name) =>
      (match RegisterFile.Lookup(registers, name)
       case Some(value) => Ok(value)
       case None => Err(RegisterRead("Cannot get a register named \"" + name + "\"")))
    case Immediate(imm) => Ok(U16(imm % 0x1_0000))
    case MemAddr(addr) =>
      if addr in memory then Ok(memory[addr])
      else Err(MemoryRead("No byte found at address " + Decode.DecimalString(addr)))
    case Symbol(sym) => Err(RizeError.Decode("Cannot use symbol '." + sym + "' as an operand value."))
    case None => Err(RizeError.Decode(INVALID_OPERAND_MESSAGE))
    case Error => Err(RizeError.Decode(INVALID_OPERAND_MESSAGE))
  }

  /**
   * Resolution fails exactly for an unknown register, an unstored address, a
   * label, and the None and Error tags; an operand that resolves always
   * resolves to a register's, a cell's or the immediate's own value.
   */
  lemma OperandFailsExactly(registers: map<string, DSB>, memory: MemoryCells, arg: ArgType)
    ensures GetOperandValue(registers, memory, arg).Err? <==>
              || (arg.Register? && RegisterFile.Lookup(registers, arg.name).None?)
              || (arg.MemAddr? && arg.addr !in memory)
              || arg.Symbol? || arg.None? || arg.Error?
  {
  }

  /** An immediate resolves to a 16-bit word holding it modulo 2^16, whatever the registers and memory hold. */
  lemma ImmediateIgnoresState(r1: map<string, DSB>, m1: MemoryCells, r2: map<string, DSB>, m2: MemoryCells, imm: usize)
    ensures GetOperandValue(r1, m1, Immediate(imm)) == GetOperandValue(r2, m2, Immediate(imm))
    ensures imm < 0x1_0000 ==> GetOperandValue(r1, m1, Immediate(imm)) == Ok(U16(imm))
  {
  }

  /**
   * Reading a register operand right after storing v under its key gives v:
   * resolution sees the register file's current contents.
   */
  lemma RegisterOperandAfterStore(registers: map<string, DSB>, memory: MemoryCells, name: string, v: DSB)
    requires name != []
    ensures var key := RegisterFile.RegisterKey(name).value;
            GetOperandValue(registers[key := v], memory, Register(name)) == Ok(v)
  {
    RegisterFile.LookupAfterStore(registers, RegisterFile.RegisterKey(name).value, v, name);
  }

  /** A register operand spelled "gXn" resolves like "gx" (see GeneralPurposeTarget): the general-purpose alias reaches operands too. */
  lemma GeneralPurposeOperand(registers: map<string, DSB>, memory: MemoryCells, name: string)
    requires RegisterFile.IsGeneralPurposeSpelling(name)
    ensures GetOperandValue(registers, memory, Register(name)).Ok?
            <==> GetOperandValue(registers, memory, Register(RegisterFile.GeneralPurposeTarget(name))).Ok?
    ensures GetOperandValue(registers, memory, Register(name)).Ok? ==>
              GetOperandValue(registers, memory, Register(name))
              == GetOperandValue(registers, memory, Register(RegisterFile.GeneralPurposeTarget(name)))
  {
    RegisterFile.GeneralPurposeAlias(registers, name);
  }
}
