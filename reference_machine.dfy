/**
 * The reference instructions of src/interpreter/collection/opcode_fn.rs
 * (commented out) as they run: each one reads its operands, checks them,
 * then writes the flag registers one at a time and finally the destination
 * register of a mutable register file, returning at the first error.
 */
module ReferenceMachine {
  import opened Wrappers
  import opened Defs
  import Word
  import ReferenceOps
  import Constants
  import DisplayStore
  import LegacyDisplay

  class Machine {
    /** The register file the instructions read and write. */
    var regs: ReferenceOps.Regs

    constructor(initial: ReferenceOps.Regs)
      ensures regs == initial
    {
      regs := initial;
    }

    /** `write_bool` on the flag register a name reaches. */
    method WriteFlag(name: string, b: bool) returns (status: Result<(), RizeError>)
      modifies this
      ensures var w := ReferenceOps.WriteFlag(old(regs), name, b);
              && (w.Ok? ==> regs == w.value && status == Ok(()))
              && (w.Err? ==> regs == old(regs) && status == Err(w.error))
    {
      var k := ReferenceOps.Locate(regs, name);
      if k.None? {
        return Err(RegisterRead("Flag register '" + name + "' not found"));
      }
      regs := regs[k.value := ReferenceOps.FlagWord(b)];
      return Ok(());
    }

    /** The four flag writes, zero, negative, carry, overflow, stopping at the first missing register. */
    method SetFlags(names: Constants.RegisterNames, f: ReferenceOps.Flags) returns (status: Result<(), RizeError>)
      modifies this
      ensures ReferenceOps.Outcome(regs, status) == ReferenceOps.SetFlags(old(regs), names, f)
    {
      status := WriteFlag(names.zero, f.zero);
      if status.Err? {
        return;
      }
      status := WriteFlag(names.negative, f.negative);
      if status.Err? {
        return;
      }
      status := WriteFlag(names.carry, f.carry);
      if status.Err? {
        return;
      }
      status := WriteFlag(names.overflow, f.overflow);
    }

    /** `add`, `sub`, `mul`, `div`: operands, checks, destination, flags, then the result. */
    method Arithmetic(kind: ReferenceOps.ArithKind, memory: seq<u16>, names: Constants.RegisterNames,
                      arg1: ArgType, arg2: ArgType, arg3: Option<ArgType>) returns (status: Result<(), RizeError>)
      modifies this
      ensures ReferenceOps.Outcome(regs, status) == ReferenceOps.Arithmetic(kind, old(regs), memory, names, arg1, arg2, arg3)
    {
      var plan := ReferenceOps.ArithPlan(kind, regs, memory, arg1, arg2, arg3);
      if plan.Err? {
        return Err(plan.error);
      }
      var (result, f, dest) := plan.value;
      status := Commit(names, f, dest, result);
    }

    /** The flag writes, then the result into the destination register. */
    method Commit(names: Constants.RegisterNames, f: ReferenceOps.Flags, dest: string, result: u16)
      returns (status: Result<(), RizeError>)
      modifies this
      ensures ReferenceOps.Outcome(regs, status) == ReferenceOps.Commit(old(regs), names, f, dest, result)
    {
      status := SetFlags(names, f);
      if status.Err? {
        return;
      }
      var k := ReferenceOps.Locate(regs, dest);
      if k.None? {
        return Err(ReferenceOps.MissingRegister(dest));
      }
      regs := regs[k.value := result];
    }

    /** `and`, `or`, `xor`: both operands must be registers; only the destination is written. */
    method Logic(op: Word.BitOp, arg1: ArgType, arg2: ArgType, arg3: Option<ArgType>) returns (status: Result<(), RizeError>)
      modifies this
      ensures ReferenceOps.Outcome(regs, status) == ReferenceOps.Logic(op, old(regs), arg1, arg2, arg3)
    {
      var plan := ReferenceOps.LogicPlan(op, regs, arg1, arg2, arg3);
      if plan.Err? {
        return Err(plan.error);
      }
      var (result, dest) := plan.value;
      var k := ReferenceOps.Locate(regs, dest).value;
      regs := regs[k := result];
      return Ok(());
    }

    /** `not`: flips every bit of the register operand in place. */
    method Not(arg1: ArgType) returns (status: Result<(), RizeError>)
      modifies this
      ensures ReferenceOps.Outcome(regs, status) == ReferenceOps.Not(old(regs), arg1)
    {
      if !arg1.Register? {
        return Err(Execute("NOT requires a Register operand (arg1)."));
      }
      var k := ReferenceOps.Locate(regs, arg1.name);
      if k.None? {
        return Err(ReferenceOps.MissingRegister(arg1.name));
      }
      var v1 := regs[k.value];
      regs := regs[k.value := 0xFFFF - v1];
      return Ok(());
    }

    /** `shl` (left) and `shr`: shifts the target register in place. */
    method Shift(left: bool, arg1: ArgType, arg2: ArgType) returns (status: Result<(), RizeError>)
      modifies this
      ensures ReferenceOps.Outcome(regs, status) == ReferenceOps.Shift(left, old(regs), arg1, arg2)
    {
      var mnemonic := if left then "SHL" else "SHR";
      if !arg1.Register? {
        return Err(Execute(mnemonic + " target (arg1) must be a Register."));
      }
      var amount := ReferenceOps.ShiftAmount(arg2, mnemonic);
      if amount.Err? {
        return Err(amount.error);
      }
      var k := ReferenceOps.Locate(regs, arg1.name);
      if k.None? {
        return Err(ReferenceOps.MissingRegister(arg1.name));
      }
      var value := regs[k.value];
      regs := regs[k.value := ReferenceOps.ShiftWord(left, value, amount.value)];
      return Ok(());
    }

    /**
     * `wdm`: unpacks the three operands into a colour and byte coordinates
     * and writes that one pixel of the 256-by-256 display; no register
     * changes.
     */
    method Wdm(display: LegacyDisplay.DisplayMemory, memory: seq<u16>, arg1: ArgType, arg2: ArgType, arg3: ArgType)
      returns (status: Result<(), RizeError>)
      requires display.Valid()
      modifies display.pixels
      ensures var p := ReferenceOps.WdmPixel(regs, memory, arg1, arg2, arg3);
              && (p.Err? ==> status == Err(p.error) && unchanged(display.pixels))
              && (p.Ok? ==> status == Ok(()) && display.GetPixel(p.value.0, p.value.1) == Ok(p.value.2))
              && (p.Ok? ==> forall i: u16, j: u16 :: (i != p.value.0 || j != p.value.1) ==>
                              display.GetPixel(i, j) == old(display.GetPixel(i, j)))
    {
      var p := ReferenceOps.WdmPixel(regs, memory, arg1, arg2, arg3);
      if p.Err? {
        return Err(p.error);
      }
      var (x, y, color) := p.value;
      status := display.SetPixel(x, y, color);
    }
  }
}
