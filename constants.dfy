/** The machine configuration of src/constants.rs. */
module Constants {

  /** Width in bits of a general-purpose word. */
  const CPU_BITTAGE: nat := 16

  /** Number of general-purpose registers created at bring-up. */
  const N_GENERAL_PURPOSE_REGISTERS: nat := 4

  /** Width in bits of the instruction register of the bit-vector design. */
  const INSTRUCTION_WIDTH: nat := 56

  /** Number of 16-bit words of the bit-vector design's memory. */
  const MEMORY_SIZE_BYTES: nat := 2048

  /**
   * The register names `PROGRAM_COUNTER`, `FLAG_ZERO`, `FLAG_CARRY`,
   * `FLAG_OVERFLOW` and `FLAG_NEGATIVE`, which the constants module exports
   * but whose values are not part of this model: they are parameters.
   */
  datatype RegisterNames = RegisterNames(programCounter: string, zero: string, carry: string, overflow: string, negative: string)
}
