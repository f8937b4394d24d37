/**
 * What the reference instructions of src/interpreter/collection/opcode_fn.rs
 * (commented out) do to the register file: which registers they write, in
 * which order, and what a failure leaves behind.
 */
module ReferenceEffects {
  import opened Wrappers
  import opened Defs
  import opened Arith
  import opened ReferenceOps
  import opened Constants
  import Word
  import WordProperties
  import RegisterFile
  import Text

  /** A stored key that one of the flag names reaches. */
  predicate IsFlagKey(regs: Regs, names: RegisterNames, k: string)
  {
    || Locate(regs, names.zero) == Some(k)
    || Locate(regs, names.negative) == Some(k)
    || Locate(regs, names.carry) == Some(k)
    || Locate(regs, names.overflow) == Some(k)
  }

  predicate AllFlagsStored(regs: Regs, names: RegisterNames)
  {
    && Locate(regs, names.zero).Some?
    && Locate(regs, names.negative).Some?
    && Locate(regs, names.carry).Some?
    && Locate(regs, names.overflow).Some?
  }

  /** Lookups depend on the stored names only, not on the words. */
  lemma LocateSameKeys(r1: Regs, r2: Regs, name: string)
    requires r1.Keys == r2.Keys
    ensures Locate(r1, name) == Locate(r2, name)
  {
  }

  /** One flag write keeps the set of registers and changes at most the register the name reaches. */
  lemma WriteFlagFrame(regs: Regs, name: string, b: bool)
    ensures var w := WriteFlag(regs, name, b);
            w.Ok? ==> w.value.Keys == regs.Keys
                      && forall k :: k in regs && Locate(regs, name) != Some(k) ==> w.value[k] == regs[k]
  {
  }

  /**
   * The flag writes keep the set of registers and change only flag
   * registers; they succeed exactly when all four flag registers exist, and
   * then write zero, negative, carry and overflow in that order.
   */
  lemma SetFlagsEffect(regs: Regs, names: RegisterNames, f: Flags)
    ensures var o := SetFlags(regs, names, f);
            && o.regs.Keys == regs.Keys
            && (o.status.Ok? <==> AllFlagsStored(regs, names))
            && (o.status.Ok? ==>
                  o.regs == regs[Locate(regs, names.zero).value := FlagWord(f.zero)]
                                [Locate(regs, names.negative).value := FlagWord(f.negative)]
                                [Locate(regs, names.carry).value := FlagWord(f.carry)]
                                [Locate(regs, names.overflow).value := FlagWord(f.overflow)])
            && (o.status.Err? ==> o.status.error.RegisterRead?)
            && (forall k :: k in regs && !IsFlagKey(regs, names, k) ==> o.regs[k] == regs[k])
  {
    var w1 := WriteFlag(regs, names.zero, f.zero);
    if w1.Ok? {
      WriteFlagFrame(regs, names.zero, f.zero);
      LocateSameKeys(regs, w1.value, names.negative);
      var w2 := WriteFlag(w1.value, names.negative, f.negative);
      if w2.Ok? {
        WriteFlagFrame(w1.value, names.negative, f.negative);
        LocateSameKeys(regs, w2.value, names.carry);
        var w3 := WriteFlag(w2.value, names.carry, f.carry);
        if w3.Ok? {
          WriteFlagFrame(w2.value, names.carry, f.carry);
          LocateSameKeys(regs, w3.value, names.overflow);
          WriteFlagFrame(w3.value, names.overflow, f.overflow);
        }
      }
    }
  }

  /**
   * An arithmetic instruction keeps the set of registers. Every check fails
   * before anything is written. On success the flags are written and then
   * the result goes into the destination; on failure no register other than
   * a flag register has changed, so the destination is never half-written.
   */
  lemma ArithmeticEffect(kind: ArithKind, regs: Regs, memory: seq<u16>, names: RegisterNames,
                         arg1: ArgType, arg2: ArgType, arg3: Option<ArgType>)
    ensures var o := Arithmetic(kind, regs, memory, names, arg1, arg2, arg3);
            var plan := ArithPlan(kind, regs, memory, arg1, arg2, arg3);
            && o.regs.Keys == regs.Keys
            && (plan.Err? ==> o == Outcome(regs, Err(plan.error)))
            && (o.status.Ok? <==> plan.Ok? && AllFlagsStored(regs, names))
            && (o.status.Ok? ==>
                  o.regs == SetFlags(regs, names, plan.value.1).regs[Locate(regs, plan.value.2).value := plan.value.0])
            && (o.status.Err? ==> forall k :: k in regs && !IsFlagKey(regs, names, k) ==> o.regs[k] == regs[k])
  {
    var plan := ArithPlan(kind, regs, memory, arg1, arg2, arg3);
    if plan.Ok? {
      var (result, f, dest) := plan.value;
      SetFlagsEffect(regs, names, f);
      var s := SetFlags(regs, names, f);
      LocateSameKeys(regs, s.regs, dest);
    }
  }

  /**
   * DIV with a zero divisor fails with "Division by zero" before any flag or
   * the destination is written.
   */
  lemma DivByZeroWritesNothing(regs: Regs, memory: seq<u16>, names: RegisterNames,
                               arg1: ArgType, arg2: ArgType, arg3: Option<ArgType>)
    requires arg1.Register? && Operand(regs, memory, arg1).Ok? && Operand(regs, memory, arg2) == Ok(0)
    ensures Arithmetic(DivOp, regs, memory, names, arg1, arg2, arg3) == Outcome(regs, Err(Execute("Division by zero")))
  {
  }

  /** Dividing "gaa" (the register "ga", holding 10) by the immediate 0 fails and leaves every register as it was. */
  lemma DivByZeroExample(regs: Regs, memory: seq<u16>, names: RegisterNames)
    requires "ga" in regs && regs["ga"] == 10
    ensures Arithmetic(DivOp, regs, memory, names, Register("gaa"), Immediate(0), Option.None)
            == Outcome(regs, Err(Execute("Division by zero")))
  {
    assert RegisterFile.RegisterKey("gaa") == Some("ga") by {
      assert Text.Utf8Length("gaa") == 3 by {
        Text.Utf8LengthBounds("gaa");
      }
      assert Text.ToLower("gaa") == "gaa";
      assert "gaa"[..2] == "ga";
    }
    DivByZeroWritesNothing(regs, memory, names, Register("gaa"), Immediate(0), Option.None);
  }

  /** Adding the immediate 8 to "gab" (the register "ga", holding 8) succeeds when the flags exist and leaves 16 there. */
  lemma AddImmediateExample(regs: Regs, memory: seq<u16>, names: RegisterNames)
    requires "ga" in regs && regs["ga"] == 8
    requires AllFlagsStored(regs, names)
    ensures var o := Arithmetic(AddOp, regs, memory, names, Register("gab"), Immediate(8), Option.None);
            o.status.Ok? && o.regs["ga"] == 16
  {
    assert RegisterFile.RegisterKey("gab") == Some("ga") by {
      assert Text.Utf8Length("gab") == 3 by {
        Text.Utf8LengthBounds("gab");
      }
      assert Text.ToLower("gab") == "gab";
      assert "gab"[..2] == "ga";
    }
    ArithmeticEffect(AddOp, regs, memory, names, Register("gab"), Immediate(8), Option.None);
  }

  /**
   * AND, OR and XOR write no flag: on success exactly the destination
   * changes, to the bitwise combination of the two register words; on
   * failure nothing changes.
   */
  lemma LogicEffect(op: Word.BitOp, regs: Regs, arg1: ArgType, arg2: ArgType, arg3: Option<ArgType>)
    ensures var o := Logic(op, regs, arg1, arg2, arg3);
            && (o.status.Err? ==> o.regs == regs)
            && (o.status.Ok? <==>
                  && arg1.Register? && arg2.Register?
                  && Locate(regs, arg1.name).Some? && Locate(regs, arg2.name).Some?
                  && Destination(regs, arg1, arg3).Ok?)
            && (o.status.Ok? ==>
                  o.regs == regs[Locate(regs, Destination(regs, arg1, arg3).value).value :=
                                 Bitwise16(op, regs[Locate(regs, arg1.name).value], regs[Locate(regs, arg2.name).value])])
  {
  }

  /** XOR of a register with itself clears it, and AND of a register with itself leaves every register as it was. */
  lemma SelfCombination(regs: Regs, name: string)
    requires Locate(regs, name).Some?
    ensures Logic(Word.XorOp, regs, Register(name), Register(name), Option.None)
            == Outcome(regs[Locate(regs, name).value := 0], Ok(()))
    ensures Logic(Word.AndOp, regs, Register(name), Register(name), Option.None) == Outcome(regs, Ok(()))
  {
    var k := Locate(regs, name).value;
    LogicEffect(Word.XorOp, regs, Register(name), Register(name), Option.None);
    LogicEffect(Word.AndOp, regs, Register(name), Register(name), Option.None);
    WordProperties.BitwiseWithItself(regs[k], 16);
    Pow2Widths();
    DivModUnique(regs[k], Pow2(16), 0, regs[k]);
    assert Bitwise16(Word.AndOp, regs[k], regs[k]) == regs[k];
    assert regs[k := regs[k]] == regs;
  }

  /** NOT changes only its register, and a second NOT restores the register file. */
  lemma NotTwiceRestores(regs: Regs, arg1: ArgType)
    ensures var o := Not(regs, arg1);
            && o.regs.Keys == regs.Keys
            && (o.status.Err? ==> o.regs == regs)
            && Not(o.regs, arg1).regs == regs
  {
    var o := Not(regs, arg1);
    if arg1.Register? {
      LocateSameKeys(regs, o.regs, arg1.name);
      if Locate(regs, arg1.name).Some? {
        var k := Locate(regs, arg1.name).value;
        assert o.regs[k := 0xFFFF - o.regs[k]] == regs;
      }
    }
  }

  /**
   * SHL and SHR change only the target register: they succeed exactly when
   * the target is a stored register and the amount an immediate or omitted.
   */
  lemma ShiftEffect(left: bool, regs: Regs, arg1: ArgType, arg2: ArgType)
    ensures var o := Shift(left, regs, arg1, arg2);
            && (o.status.Err? ==> o.regs == regs)
            && (o.status.Ok? <==> arg1.Register? && (arg2.Immediate? || arg2.None?) && Locate(regs, arg1.name).Some?)
            && (o.status.Ok? ==>
                  var k := Locate(regs, arg1.name).value;
                  o.regs == regs[k := ShiftWord(left, regs[k], if arg2.Immediate? then arg2.imm else 1)])
  {
  }

  /** Multiplying by h and reducing modulo l * h keeps x's remainder modulo l, scaled by h. */
  lemma ScaledRemainder(x: nat, l: nat, h: nat)
    requires l > 0 && h > 0
    ensures (x * h) % (l * h) == (x % l) * h
  {
    var q, r := x / l, x % l;
    assert x == q * l + r;
    assert x * h == q * (l * h) + r * h;
    assert r * h < l * h by {
      assert (l - r) * h > 0;
    }
    DivModUnique(x * h, l * h, q, r * h);
  }

  /**
   * Shifting left by k < 16 and back right by k keeps exactly the low
   * 16 - k bits: the bits shifted out at the top are lost.
   */
  lemma ShiftLeftThenRight(v: u16, k: nat)
    requires k < 16
    ensures ShiftWord(false, ShiftWord(true, v, k), k) == v % Pow2(16 - k)
  {
    var lo, hi := Pow2(16 - k), Pow2(k);
    Pow2Add(16 - k, k);
    Pow2Widths();
    assert lo * hi == 0x1_0000;
    assert k % 16 == k;
    var s := (v % lo) * hi;
    assert (v * hi) % 0x1_0000 == s by {
      ScaledRemainder(v, lo, hi);
    }
    assert ShiftWord(true, v, k) == s;
    assert s / hi == v % lo by {
      DivModUnique(s, hi, v % lo, 0);
    }
  }

  /**
   * WDM loses nothing: red and green reassemble the first operand, blue and
   * alpha the second, x and y the third.
   */
  lemma WdmChannels(regs: Regs, memory: seq<u16>, arg1: ArgType, arg2: ArgType, arg3: ArgType)
    ensures var r := WdmPixel(regs, memory, arg1, arg2, arg3);
            && (r.Ok? <==> Operand(regs, memory, arg1).Ok? && Operand(regs, memory, arg2).Ok? && Operand(regs, memory, arg3).Ok?)
            && (r.Ok? ==>
                  var (x, y, c) := r.value;
                  && c.red * 0x100 + c.green == Operand(regs, memory, arg1).value
                  && c.blue * 0x100 + c.alpha == Operand(regs, memory, arg2).value
                  && x * 0x100 + y == Operand(regs, memory, arg3).value)
  {
  }
}
