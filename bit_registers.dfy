/**
 * The bit-vector design of src/types.rs: a register is a vector of signed
 * bytes used as binary digits, the register file a name-to-register table,
 * and memory a fixed run of 16-bit words.
 */
module BitRegisters {
  import opened Constants
  import Defs

  type i8 = x: int | -0x80 <= x < 0x80

  /** A register: its digits, one signed byte each. */
  datatype Register = Register(bits: seq<i8>)

  /** `Register::init`: `length` digits, every one of them 0. */
  function Init(length: nat): (r: Register)
    ensures |r.bits| == length
    ensures forall i :: 0 <= i < length ==> r.bits[i] == 0
  {
    Register(seq(length, _ => 0))
  }

  /** `read`: a copy of the digits; the register is a value and is left as it was. */
  function Read(r: Register): (bits: seq<i8>)
    ensures |bits| == |r.bits|
    ensures forall i :: 0 <= i < |bits| ==> bits[i] == r.bits[i]
  {
    r.bits
  }

  /** Reading a fresh register gives `length` zero digits and nothing else. */
  lemma ReadInit(length: nat)
    ensures Read(Init(length)) == seq(length, _ => 0)
  {
    var r := Read(Init(length));
    assert forall i :: 0 <= i < length ==> r[i] == 0;
  }

  /** The register file: the register stored under each name. */
  class Registers {
    var all: map<string, Register>

    /** `Registers::new`: no registers. */
    constructor()
      ensures all == map[]
    {
      all := map[];
    }

    /** `insert`: adds the register under `name`, replacing one stored there; every other name keeps its register. */
    method Insert(name: string, register: Register)
      modifies this
      ensures all == old(all)[name := register]
      ensures forall k :: k in old(all) && k != name ==> k in all && all[k] == old(all)[k]
    {
      all := all[name := register];
    }
  }

  /** `bit_to_string`: a one-character rendering of a digit; anything but 0 or 1 shows as "?". */
  function BitToString(b: i8): (s: string)
    ensures |s| == 1
    ensures s == "0" <==> b == 0
    ensures s == "1" <==> b == 1
    ensures s == "?" <==> b != 0 && b != 1
  {
    match b
    case 0 => "0"
    case 1 => "1"
    case _ => "?"
  }

  /** The memory: a run of 16-bit words. */
  datatype Memory = Memory(bytes: seq<Defs.u16>)

  /** `Memory::new`: MEMORY_SIZE_BYTES words, all zero. */
  function NewMemory(): (m: Memory)
    ensures |m.bytes| == MEMORY_SIZE_BYTES
    ensures forall i :: 0 <= i < |m.bytes| ==> m.bytes[i] == 0
  {
    Memory(seq(MEMORY_SIZE_BYTES, _ => 0))
  }
}
