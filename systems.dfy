/**
 * Register bring-up of the bit-vector design (src/systems.rs): the
 * instruction register, the program counter, the memory address and data
 * registers, four one-digit flags and the general-purpose registers "ga",
 * "gb", ...
 */
module Systems {
  import opened Constants
  import opened BitRegisters

  /** The name of general-purpose register i: "g" followed by the i-th lower-case letter. */
  function GeneralPurposeName(i: nat): (name: string)
    requires i < 26
    ensures |name| == 2 && name[0] == 'g' && 'a' <= name[1] <= 'z'
    ensures name[1] as int - 'a' as int == i
  {
    ['g', ('a' as int + i) as char]
  }

  /** Distinct indices give distinct names. */
  lemma GeneralPurposeNamesDistinct(i: nat, j: nat)
    requires i < 26 && j < 26 && i != j
    ensures GeneralPurposeName(i) != GeneralPurposeName(j)
  {
    assert GeneralPurposeName(i)[1] != GeneralPurposeName(j)[1];
  }

  /** The names of the registers with a fixed role. */
  const BASIC_NAMES: seq<string> := ["ir", "pc", "mar", "mdr", "zf", "cf", "of", "nf"]

  /** The width `setup_registers` gives the register of each fixed-role name. */
  function BasicWidth(name: string): nat
  {
    if name == "ir" then INSTRUCTION_WIDTH
    else if name in ["pc", "mar", "mdr"] then CPU_BITTAGE
    else 1
  }

  /** The register file after the eight fixed-role inserts. */
  function WithBasic(start: map<string, Register>): (m: map<string, Register>)
    ensures forall k :: k in BASIC_NAMES ==> k in m && m[k] == Init(BasicWidth(k))
  {
    start["ir" := Init(INSTRUCTION_WIDTH)]["pc" := Init(CPU_BITTAGE)]
         ["mar" := Init(CPU_BITTAGE)]["mdr" := Init(CPU_BITTAGE)]
         ["zf" := Init(1)]["cf" := Init(1)]["of" := Init(1)]["nf" := Init(1)]
  }

  /** No fixed-role name starts with "g", so none is a general-purpose name. */
  lemma BasicNamesNotGeneralPurpose()
    ensures forall k :: k in BASIC_NAMES ==> k !in GeneralPurposeSet(N_GENERAL_PURPOSE_REGISTERS)
  {
    forall k | k in BASIC_NAMES
      ensures k !in GeneralPurposeSet(N_GENERAL_PURPOSE_REGISTERS)
    {
      assert k[0] != 'g';
    }
  }

  /** The register file `setup_registers` leaves behind, given the one it starts from. */
  function AfterSetup(start: map<string, Register>): (m: map<string, Register>)
    ensures forall k :: k in BASIC_NAMES ==> k in m && m[k] == Init(BasicWidth(k))
    ensures forall i :: 0 <= i < N_GENERAL_PURPOSE_REGISTERS ==>
              GeneralPurposeName(i) in m && m[GeneralPurposeName(i)] == Init(CPU_BITTAGE)
  {
    BasicNamesNotGeneralPurpose();
    WithGeneralPurpose(WithBasic(start), N_GENERAL_PURPOSE_REGISTERS, Init(CPU_BITTAGE))
  }

  /**
   * The table after inserting general-purpose registers 0 .. n-1, each
   * holding `v`, into `m`.
   */
  function WithGeneralPurpose<V>(m: map<string, V>, n: nat, v: V): (r: map<string, V>)
    requires n <= 26
    ensures r.Keys == m.Keys + GeneralPurposeSet(n)
    ensures forall i :: 0 <= i < n ==> r[GeneralPurposeName(i)] == v
    ensures forall k :: k in m && k !in GeneralPurposeSet(n) ==> r[k] == m[k]
  {
    if n == 0 then m
    else
      var prev := WithGeneralPurpose(m, n - 1, v);
      var r := prev[GeneralPurposeName(n - 1) := v];
      GeneralPurposeSetStep(n);
      assert forall i :: 0 <= i < n - 1 ==> r[GeneralPurposeName(i)] == v by {
        forall i | 0 <= i < n - 1 {
          GeneralPurposeNamesDistinct(i, n - 1);
        }
      }
      r
  }

  /** The names of general-purpose registers 0 .. n-1. */
  function GeneralPurposeSet(n: nat): set<string>
    requires n <= 26
  {
    set i | 0 <= i < n :: GeneralPurposeName(i)
  }

  /** The first n names are the first n - 1 and the n-th. */
  lemma GeneralPurposeSetStep(n: nat)
    requires 0 < n <= 26
    ensures GeneralPurposeSet(n) == GeneralPurposeSet(n - 1) + {GeneralPurposeName(n - 1)}
  {
    assert GeneralPurposeName(n - 1) in GeneralPurposeSet(n);
  }

  /**
   * `setup_registers`: inserts the eight fixed-role registers, then the
   * general-purpose ones in a loop; every digit starts at 0.
   */
  method SetupRegisters(registers: Registers)
    modifies registers
    ensures registers.all == AfterSetup(old(registers.all))
  {
    registers.Insert("ir", Init(INSTRUCTION_WIDTH));
    registers.Insert("pc", Init(CPU_BITTAGE));
    registers.Insert("mar", Init(CPU_BITTAGE));
    registers.Insert("mdr", Init(CPU_BITTAGE));
    registers.Insert("zf", Init(1));
    registers.Insert("cf", Init(1));
    registers.Insert("of", Init(1));
    registers.Insert("nf", Init(1));
    ghost var basic := registers.all;
    assert basic == WithBasic(old(registers.all));
    for i := 0 to N_GENERAL_PURPOSE_REGISTERS
      invariant registers.all == WithGeneralPurpose(basic, i, Init(CPU_BITTAGE))
    {
      registers.Insert(GeneralPurposeName(i), Init(CPU_BITTAGE));
    }
  }

  /** Every register name bring-up creates, fixed-role names first. */
  const SETUP_NAMES: seq<string> := BASIC_NAMES + ["ga", "gb", "gc", "gd"]

  lemma SetupNamesDistinct()
    ensures forall i, j :: 0 <= i < j < |SETUP_NAMES| ==> SETUP_NAMES[i] != SETUP_NAMES[j]
  {
    forall i, j | 0 <= i < j < |SETUP_NAMES|
      ensures SETUP_NAMES[i] != SETUP_NAMES[j]
    {
      assert SETUP_NAMES[i][0] != SETUP_NAMES[j][0] || SETUP_NAMES[i][1] != SETUP_NAMES[j][1];
    }
  }

  /** A sequence without repetitions has as many distinct elements as entries. */
  lemma {:induction false} DistinctCount(s: seq<string>)
    requires forall i, j :: 0 <= i < j < |s| ==> s[i] != s[j]
    ensures |set x | x in s| == |s|
  {
    if s != [] {
      DistinctCount(s[1..]);
      assert (set x | x in s) == {s[0]} + (set x | x in s[1..]);
    }
  }

  lemma FirstFourNames()
    ensures GeneralPurposeSet(N_GENERAL_PURPOSE_REGISTERS) == {"ga", "gb", "gc", "gd"}
  {
    assert GeneralPurposeName(0) == "ga";
    assert GeneralPurposeName(1) == "gb";
    assert GeneralPurposeName(2) == "gc";
    assert GeneralPurposeName(3) == "gd";
  }

  /** Starting from an empty file, bring-up creates exactly the 8 + N names listed, no more. */
  lemma SetupCount()
    ensures AfterSetup(map[]).Keys == set x | x in SETUP_NAMES
    ensures |AfterSetup(map[]).Keys| == 8 + N_GENERAL_PURPOSE_REGISTERS
  {
    FirstFourNames();
    SetupNamesDistinct();
    DistinctCount(SETUP_NAMES);
    assert AfterSetup(map[]).Keys == set x | x in SETUP_NAMES;
  }
}
