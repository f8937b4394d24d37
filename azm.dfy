/**
 * The assembly interpreter of src/interpreter/collection/azm.rs on the word
 * register file: bring-up of the program counter, the memory registers, the
 * four flags and the general-purpose registers, and the fetch step, which
 * walks the program text from the line the program counter names, skipping
 * blank lines, comments ("#") and directives ("."), and advances the
 * program counter once per line it reads.
 */
module Azm {
  import opened Wrappers
  import opened Defs
  import opened Arith
  import opened Constants
  import opened Word
  import Text
  import RegisterFile
  import Systems

  // ----- setup_registers -----

  /** The fixed-role names bring-up inserts. */
  function BasicKeys(names: RegisterNames): set<string>
  {
    {names.programCounter, "mar", "mdr", names.zero, names.carry, names.overflow, names.negative}
  }

  /** The names of the general-purpose registers bring-up creates. */
  function GeneralPurposeSet(): set<string>
  {
    Systems.GeneralPurposeSet(N_GENERAL_PURPOSE_REGISTERS)
  }

  predicate IsFlagName(names: RegisterNames, k: string)
  {
    k == names.zero || k == names.carry || k == names.overflow || k == names.negative
  }

  /**
   * The register file after the seven fixed-role inserts. A later insert
   * under the same name replaces an earlier one, so a flag name holds a
   * false flag even when it is also the name of the program counter or a
   * memory register.
   */
  function WithBasic(start: map<string, DSB>, names: RegisterNames): (m: map<string, DSB>)
    ensures m.Keys == start.Keys + BasicKeys(names)
    ensures forall k :: IsFlagName(names, k) ==> m[k] == Flag(false)
    ensures forall k :: k in BasicKeys(names) && !IsFlagName(names, k) ==> m[k] == DefaultDsb()
    ensures forall k :: k in start && k !in BasicKeys(names) ==> m[k] == start[k]
  {
    start[names.programCounter := DefaultDsb()]["mar" := DefaultDsb()]["mdr" := DefaultDsb()]
         [names.zero := Flag(false)][names.carry := Flag(false)]
         [names.overflow := Flag(false)][names.negative := Flag(false)]
  }

  /**
   * The register file `setup_registers` leaves, given the one it starts
   * from: the general-purpose registers, inserted last, hold a zero word
   * whatever else their name is; the other fixed-role names are as
   * WithBasic leaves them; every other register is kept.
   */
  function AfterSetup(start: map<string, DSB>, names: RegisterNames): (m: map<string, DSB>)
    ensures m.Keys == start.Keys + BasicKeys(names) + GeneralPurposeSet()
    ensures forall k :: k in GeneralPurposeSet() ==> m[k] == DefaultDsb()
    ensures forall k :: IsFlagName(names, k) && k !in GeneralPurposeSet() ==> m[k] == Flag(false)
    ensures forall k :: k in BasicKeys(names) && !IsFlagName(names, k) ==> m[k] == DefaultDsb()
    ensures forall k :: k in start && k !in BasicKeys(names) && k !in GeneralPurposeSet() ==> m[k] == start[k]
  {
    Systems.WithGeneralPurpose(WithBasic(start, names), N_GENERAL_PURPOSE_REGISTERS, DefaultDsb())
  }

  /**
   * `setup_registers`: inserts the program counter, "mar" and "mdr" as zero
   * words, the four flags as false, then the general-purpose registers
   * "ga", "gb", ... as zero words in a loop.
   */
  method SetupRegisters(registers: RegisterFile.Registers, names: RegisterNames)
    modifies registers
    ensures registers.all == AfterSetup(old(registers.all), names)
  {
    registers.Insert(RegisterFile.Normal(names.programCounter));
    registers.Insert(RegisterFile.Normal("mar"));
    registers.Insert(RegisterFile.Normal("mdr"));
    registers.Insert(RegisterFile.FlagRegister(names.zero));
    registers.Insert(RegisterFile.FlagRegister(names.carry));
    registers.Insert(RegisterFile.FlagRegister(names.overflow));
    registers.Insert(RegisterFile.FlagRegister(names.negative));
    assert registers.all == WithBasic(old(registers.all), names);
    InsertGeneralPurpose(registers);
  }

  /** The loop of `setup_registers`: "ga", "gb", ... inserted as zero words. */
  method InsertGeneralPurpose(registers: RegisterFile.Registers)
    modifies registers
    ensures registers.all == Systems.WithGeneralPurpose(old(registers.all), N_GENERAL_PURPOSE_REGISTERS, DefaultDsb())
  {
    for i := 0 to N_GENERAL_PURPOSE_REGISTERS
      invariant registers.all == Systems.WithGeneralPurpose(old(registers.all), i, DefaultDsb())
    {
      registers.Insert(RegisterFile.Normal(Systems.GeneralPurposeName(i)));
    }
  }

  /**
   * After bring-up every general-purpose register is reachable under any of
   * its operand spellings: its own name, and a three-character "gXn" or
   * "GXn" whose middle letter is the register's letter in either case; it
   * holds a zero word.
   */
  lemma GeneralPurposeReachable(start: map<string, DSB>, names: RegisterNames, i: nat, spelling: string)
    requires i < N_GENERAL_PURPOSE_REGISTERS
    requires spelling == Systems.GeneralPurposeName(i)
             || (RegisterFile.IsGeneralPurposeSpelling(spelling)
                 && Text.AsciiLower(spelling[1]) == Systems.GeneralPurposeName(i)[1])
    ensures RegisterFile.Lookup(AfterSetup(start, names), spelling) == Some(DefaultDsb())
  {
    var m := AfterSetup(start, names);
    var name := Systems.GeneralPurposeName(i);
    assert name in GeneralPurposeSet();
    assert name in m && m[name] == DefaultDsb();
    GeneralPurposeKey(i);
    SpellingReaches(m, name, spelling);
    RegisterFile.LookupFinds(m, name);
  }

  /** A general-purpose name is its own lookup key. */
  lemma GeneralPurposeKey(i: nat)
    requires i < 26
    ensures RegisterFile.RegisterKey(Systems.GeneralPurposeName(i)) == Some(Systems.GeneralPurposeName(i))
  {
    var name := Systems.GeneralPurposeName(i);
    var key := RegisterFile.RegisterKey(name).value;
    Text.Utf8LengthBounds(name);
    assert Text.AsciiLower(name[0]) == name[0] && Text.AsciiLower(name[1]) == name[1];
    assert |key| == 2 && key[0] == name[0] && key[1] == name[1];
    assert key == name;
  }

  /** A "gXn" spelling whose letter is the name's reaches what the two-letter name reaches. */
  lemma SpellingReaches(m: map<string, DSB>, name: string, spelling: string)
    requires |name| == 2 && name[0] == 'g' && 'a' <= name[1] <= 'z'
    requires spelling == name
             || (RegisterFile.IsGeneralPurposeSpelling(spelling) && Text.AsciiLower(spelling[1]) == name[1])
    ensures RegisterFile.Lookup(m, spelling) == RegisterFile.Lookup(m, name)
  {
    if spelling != name {
      RegisterFile.GeneralPurposeAlias(m, spelling);
      RegisterFile.GeneralPurposeShape(spelling);
      assert RegisterFile.GeneralPurposeTarget(spelling) == name;
    }
  }

  /**
   * After bring-up a fixed-role name that is already in the lookup's
   * normal form (lower case, not a three-character "g" name) reaches its
   * register; a flag holds false and the program counter a zero word.
   */
  lemma BasicReachable(start: map<string, DSB>, names: RegisterNames, k: string)
    requires k in BasicKeys(names) && k !in GeneralPurposeSet()
    requires RegisterFile.RegisterKey(k) == Some(k)
    ensures RegisterFile.Lookup(AfterSetup(start, names), k).Some?
    ensures IsFlagName(names, k) ==> RegisterFile.Lookup(AfterSetup(start, names), k) == Some(Flag(false))
    ensures !IsFlagName(names, k) ==> RegisterFile.Lookup(AfterSetup(start, names), k) == Some(DefaultDsb())
  {
    RegisterFile.LookupFinds(AfterSetup(start, names), k);
  }

  /**
   * A program counter spelled with an upper-case letter is stored under
   * that spelling but looked up in lower case, so it can never be found.
   */
  lemma UpperCaseNameUnreachable(m: map<string, DSB>, name: string)
    requires exists i :: 0 <= i < |name| && 'A' <= name[i] <= 'Z'
    requires forall k :: k in m ==> k == name
    ensures RegisterFile.Lookup(m, name) == Option.None
  {
    RegisterFile.LookupFinds(m, name);
    if name != [] {
      RegisterFile.UnreachableKeys(name, name);
    }
  }

  // ----- fetch -----

  /** The first character of a line that is not white space, if any. */
  function FirstVisible(line: string): Option<char>
  {
    if line == [] then Option.None
    else if Text.IsWhiteSpace(line[0]) then FirstVisible(line[1..])
    else Some(line[0])
  }

  /** A line fetch passes over: blank, or a comment ("#") or directive (".") once leading white space is dropped. */
  predicate IsSkippable(line: string)
  {
    FirstVisible(line) in {Option.None, Some('#'), Some('.')}
  }

  /** The first visible character is the first character of the line with its leading white space trimmed. */
  lemma {:induction false} FirstVisibleTrimStart(line: string)
    ensures var t := Text.TrimStart(line);
            FirstVisible(line) == if t == [] then Option.None else Some(t[0])
    decreases |line|
  {
    if line != [] && Text.IsWhiteSpace(line[0]) {
      FirstVisibleTrimStart(line[1..]);
    }
  }

  /**
   * IsSkippable is the test `fetch` makes: the trimmed line is empty or
   * starts with "#" or ".".
   */
  lemma SkippableByTrim(line: string)
    ensures var t := Text.Trim(line);
            IsSkippable(line) <==> t == [] || t[0] == '#' || t[0] == '.'
  {
    FirstVisibleTrimStart(line);
    var r := Text.TrimStart(line);
    var t := Text.TrimEnd(r);
    if r != [] {
      assert !Text.IsWhiteSpace(r[0]);
      assert t != [];
      assert t[0] == r[0];
    }
  }

  /** The test `fetch` makes on a line: trim it, then check for nothing left, "#" or ".". */
  method LineIsSkippable(line: string) returns (skip: bool)
    ensures skip <==> IsSkippable(line)
  {
    var next := Text.Trim(line);
    skip := next == [] || next[0] == '#' || next[0] == '.';
    SkippableByTrim(line);
  }

  /** The index of the first line at or after `from` that fetch stops at, if any. */
  function NextInstruction(lines: seq<string>, from: nat): (r: Option<nat>)
    ensures r.Some? ==> from <= r.value < |lines|
    decreases |lines| - from
  {
    if from >= |lines| then Option.None
    else if !IsSkippable(lines[from]) then Some(from)
    else NextInstruction(lines, from + 1)
  }

  /**
   * NextInstruction finds the first line at or after `from` that is not
   * skippable, and finds nothing exactly when every line from there on is
   * skippable.
   */
  lemma {:induction false} NextInstructionMeaning(lines: seq<string>, from: nat)
    ensures var r := NextInstruction(lines, from);
            && (r.Some? ==> from <= r.value < |lines| && !IsSkippable(lines[r.value]))
            && (r.Some? ==> forall k :: from <= k < r.value ==> IsSkippable(lines[k]))
            && (r.None? <==> forall k :: from <= k < |lines| ==> IsSkippable(lines[k]))
    decreases |lines| - from
  {
    if from < |lines| && IsSkippable(lines[from]) {
      NextInstructionMeaning(lines, from + 1);
    }
  }

  /** The number of lines fetch reads from `from`: up to and including the instruction, or all that remain. */
  function Consumed(lines: seq<string>, from: nat): nat
  {
    match NextInstruction(lines, from)
    case Some(i) => i + 1 - from
    case None => if from < |lines| then |lines| - from else 0
  }

  /** The word after `n` calls of `Register::inc`. */
  function IncTimes(d: DSB, n: nat): DSB
  {
    if n == 0 then d else Word.Add(IncTimes(d, n - 1), U32(1))
  }

  /** Incrementing a 16-bit word n times adds n modulo 2^16. */
  lemma {:induction false} IncTimesU16(h: u16, n: nat)
    ensures IncTimes(U16(h), n) == U16((h + n) % 0x1_0000)
  {
    if n == 0 {
      DivModUnique(h, 0x1_0000, 0, h);
    } else {
      IncTimesU16(h, n - 1);
      var p := (h + n - 1) % 0x1_0000;
      assert IncTimes(U16(h), n) == Word.Add(U16(p), U32(1));
      RegisterFile.IncWord(p);
      AddMod(h + n - 1, 1, 0x1_0000);
    }
  }

  /**
   * One more `Register::inc` on the cell under `key` is one more
   * increment of the word it started from; the other cells are untouched.
   */
  lemma IncOnceMore(m0: map<string, DSB>, m: map<string, DSB>, key: string, d: DSB, n: nat)
    requires m == m0[key := IncTimes(d, n)]
    ensures m[key := Word.Add(m[key], U32(1))] == m0[key := IncTimes(d, n + 1)]
  {
  }

  /**
   * Skipping the lines before an index that are all skippable does not
   * change which instruction is found.
   */
  lemma NextInstructionStep(lines: seq<string>, from: nat)
    requires from < |lines| && IsSkippable(lines[from])
    ensures NextInstruction(lines, from + 1) == NextInstruction(lines, from)
  {
  }

  /** Reaching the end of the text having skipped every line from `start`: no instruction, and every line read. */
  lemma ConsumedAtEnd(lines: seq<string>, start: nat, i: nat)
    requires start <= i && |lines| <= i && (i > start ==> i == |lines|)
    requires NextInstruction(lines, i) == NextInstruction(lines, start)
    ensures NextInstruction(lines, start) == Option.None
    ensures Consumed(lines, start) == i - start
  {
  }

  /** Stopping at a line that is not skippable: that line is the instruction, and the lines up to it were read. */
  lemma ConsumedAtInstruction(lines: seq<string>, start: nat, i: nat)
    requires start <= i < |lines| && !IsSkippable(lines[i])
    requires NextInstruction(lines, i) == NextInstruction(lines, start)
    ensures NextInstruction(lines, start) == Some(i)
    ensures Consumed(lines, start) == i + 1 - start
  {
  }

  /**
   * `fetch`: reads the lines of the program from the one the program
   * counter names (its value as a usize), incrementing the counter once per
   * line read; it stops after the first line that is not blank, a comment or
   * a directive and answers Some, or answers None at the end of the text.
   * Only the program counter changes.
   */
  method Fetch(registers: RegisterFile.Registers, names: RegisterNames, program: ActiveProgram) returns (r: Option<()>)
    requires RegisterFile.Lookup(registers.all, names.programCounter).Some?
    modifies registers
    ensures var key := RegisterFile.RegisterKey(names.programCounter).value;
            var lines := Text.Lines(program.contents);
            var start := AsUsize(old(registers.all)[key]);
            && (r.Some? <==> NextInstruction(lines, start).Some?)
            && registers.all == old(registers.all)[key := IncTimes(old(registers.all)[key], Consumed(lines, start))]
  {
    RegisterFile.LookupFinds(registers.all, names.programCounter);
    var key := RegisterFile.RegisterKey(names.programCounter).value;
    r := ReadLines(registers, key, Text.Lines(program.contents));
  }

  /**
   * The loop of `fetch` on the counter stored under `key`: reads `lines`
   * from the counter's value on, one increment per line read, up to and
   * including the first line that is not skippable.
   */
  method ReadLines(registers: RegisterFile.Registers, key: string, lines: seq<string>) returns (r: Option<()>)
    requires key in registers.all
    modifies registers
    ensures var start := AsUsize(old(registers.all)[key]);
            && (r.Some? <==> NextInstruction(lines, start).Some?)
            && registers.all == old(registers.all)[key := IncTimes(old(registers.all)[key], Consumed(lines, start))]
  {
    ghost var pc0 := registers.all[key];
    var start: nat := AsUsize(registers.all[key]);
    var i := start;
    ghost var count: nat := 0;
    while i < |lines|
      invariant start <= i && count == i - start
      invariant i > start ==> i <= |lines|
      invariant NextInstruction(lines, i) == NextInstruction(lines, start)
      invariant registers.all == old(registers.all)[key := IncTimes(pc0, count)]
      decreases |lines| - i
    {
      var skip := LineIsSkippable(lines[i]);
      IncOnceMore(old(registers.all), registers.all, key, pc0, count);
      registers.Inc(key);
      count := count + 1;
      if !skip {
        ConsumedAtInstruction(lines, start, i);
        return Some(());
      }
      NextInstructionStep(lines, i);
      i := i + 1;
    }
    ConsumedAtEnd(lines, start, i);
    return Option.None;
  }

  /**
   * A fetch that finds its instruction at line i leaves a 16-bit program
   * counter at i + 1 (modulo 2^16): the next fetch starts just after it.
   */
  lemma FetchStopsPastInstruction(h: u16, lines: seq<string>, i: nat)
    requires NextInstruction(lines, h) == Some(i)
    ensures IncTimes(U16(h), Consumed(lines, h)) == U16((i + 1) % 0x1_0000)
  {
    var n := Consumed(lines, h);
    assert h + n == i + 1;
    IncTimesU16(h, n);
  }

  /**
   * A fetch that reaches the end of the text leaves a 16-bit program
   * counter just past the last line (modulo 2^16), or where it was when it
   * already pointed beyond the text.
   */
  lemma FetchAtEnd(h: u16, lines: seq<string>)
    requires NextInstruction(lines, h) == Option.None
    ensures h < |lines| ==> IncTimes(U16(h), Consumed(lines, h)) == U16(|lines| % 0x1_0000)
    ensures h >= |lines| ==> IncTimes(U16(h), Consumed(lines, h)) == U16(h)
  {
    var n := Consumed(lines, h);
    if h < |lines| {
      assert h + n == |lines|;
      IncTimesU16(h, n);
    } else {
      assert n == 0;
    }
  }
}
