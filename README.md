# Rize-1 core in Dafny

Rize-1 is a toy CPU emulator for a line-oriented assembly language. Its
register and memory code is mid-rewrite, so two designs sit side by side:

- the older **width-tagged word** design (`src/types/*.rs`,
  `src/interpreter/**`);
- the newer **bit-vector** design (`src/types.rs`, `src/systems.rs`).

This project models both as written and does not reconcile them.

## The model, module by module

- **Defs, Constants, Wrappers.** The data declarations of
  `src/types/defs.rs`, the machine constants, and Option/Result.
  - `DSB` is a datatype over bounded naturals. `usize` is taken as 64 bits.
  - `PROGRAM_COUNTER` and the `FLAG_*` names are imported from
    `crate::constants` but not defined in src/constants.rs, so they are a
    `RegisterNames` parameter.
- **Word, WordProperties.** The `DSB` operators (`+ - * / & | ^ << >> !`).
  - Each binary operator computes on both operands' `as_usize` with 64-bit
    wrapping, then re-tags with the left operand's width, cut modulo
    2^width.
  - A Flag result is true iff the value is non-zero. A USIZE left operand
    comes back as U64.
  - Division by zero gives zero. Shift counts are taken modulo 64.
  - NOT flips bits within the operand's own variant.
- **ByteCell.** The `Byte` cell: a class with one field.
  - Every operation replaces the field.
  - Each reports the previous value, the new value and `carry = false`.
  - `write` leaves `result` at the default word.
- **BitsConversion.** `Bits::from(DSB)` is a loop that pushes
  least-significant bits and reverses them. `Bits::as_decimal` is a loop
  with a doubling power.
  - Both are proved against the most-significant-first reading of the
    digits.
  - They round-trip for widths up to 64.
- **Text, RegisterFile.** ASCII case mapping, `trim`, `str::lines`, and the
  old register file. The file is a class over `map<string, DSB>`.
  - `get` lower-cases the name.
  - `get` drops the last character of a `g…` name whose UTF-8 encoding is
    three bytes long (`str::len` counts bytes).
  - `insert` adds or overwrites an entry.
  - `inc` adds `U32(1)`.
- **Decode.** `OpCode::as_string`/`from_str`, and
  `ArgType::as_string`/`from_string` with its ordered first-match rules.
- **AzmFileScan.** `AzmFile::scan_chunk` as a byte loop, and `get_line`.
- **Operands.** The live `get_operand_value`.
- **ReferenceOps, ReferenceFlags, ReferenceEffects, ReferenceMachine.** The
  opcode semantics that `opcode_fn.rs` keeps only as **commented-out
  reference code**, on 16-bit cells.
  - ReferenceOps gives them as functions from a register file to an
    outcome.
  - ReferenceMachine gives them as methods of a class whose register map
    the instructions update flag by flag and then at the destination. It
    is proved equal to the functions.
  - ReferenceFlags states what each flag means.
  - ReferenceEffects states what each instruction changes and what it
    leaves alone.
- **Azm.** `setup_registers` and `fetch` of the interpreter, both as
  methods on the register-file class.
- **DisplayStore, LegacyDisplay.** The two pixel stores, as `array2`.
- **BitRegisters, Systems.** The bit-vector register, register file and
  memory, and its register bring-up.

Notes on the code:

- `fetch` neither stores the line it finds nor rebuilds the label table. It
  only moves the program counter.
- `scan_chunk` records a label with the 0-based index of its line, not a
  1-based line number.
- `from_string` parses an immediate with Rust's `usize` parser, which
  accepts a leading `+`. So `"+5"` is `Immediate(5)`.

DIV sets its overflow flag for 0x8000 / 0xFFFF, even though the unsigned
quotient it stores is 0. The flag describes the signed division -32768 / -1.
`ReferenceFlags.DivOverflowExample` shows this, and it is the source's
behaviour.

## Model

| member | source | states |
|---|---|---|
| Word.Modulus | src/types/impls.rs:245-256 | every word's value is below 2 to the power of its `get_size` width |
| Word.AsUsize | src/types/impls.rs:258-268 | `as_usize` is the word's value, cut to 64 bits; it is exact for widths up to 64 |
| Word.WrapTwice | src/types/impls.rs:26-39 | cutting to 64 bits before re-tagging changes nothing modulo the result width |
| Word.FromUsizeMatchingSize | src/types/impls.rs:26-39 | the result has the original's width, and its value is the input modulo that width; a Flag is true iff the input is non-zero, and USIZE becomes U64 |
| Word.FromCpuBittage | src/types/impls.rs:42-55 | a U16 holding the value modulo 2^16 |
| Word.DefaultDsb | src/types/impls.rs:57-67 | the default word is a 16-bit zero |
| Word.Add | src/types/impls.rs:118-127 | wraps the 64-bit sum of both operands into the left operand's width |
| Word.Sub | src/types/impls.rs:129-138 | wraps the 64-bit difference (with borrow past zero) into the left operand's width |
| Word.Mul | src/types/impls.rs:140-149 | wraps the 64-bit product into the left operand's width |
| Word.Div | src/types/impls.rs:151-166 | a zero divisor gives zero of the dividend's width; otherwise the quotient, re-tagged |
| Word.BitwiseWord | src/types/impls.rs:168-226 | AND/OR/XOR act bit by bit on the 64-bit values, and the result is re-tagged to the left operand's width |
| Word.ShiftCount | src/types/impls.rs:179-204 | the shift count is the right operand's value modulo 64 |
| Word.Shl | src/types/impls.rs:195-204 | the left value times 2^(count mod 64), re-tagged |
| Word.Shr | src/types/impls.rs:179-193 | the left value divided by 2^(count mod 64), re-tagged |
| Word.Not | src/types/impls.rs:228-243 | keeps the exact variant; a flag is negated, and any other value v becomes 2^width - 1 - v |
| Word.GetSize | src/types/impls.rs:245-256 | a width of 1 to 128 bits, a whole number of bytes for every word except the one-bit flag, and 64 for a usize |
| Word.BitAnd | src/types/impls.rs:168-177 | `&` is the digit-wise AND of the two 64-bit images, wrapped into the left operand's width |
| Word.BitOr | src/types/impls.rs:206-215 | `|` is the digit-wise OR of the two 64-bit images, wrapped into the left operand's width |
| Word.BitXor | src/types/impls.rs:217-226 | `^` is the digit-wise XOR of the two 64-bit images, wrapped into the left operand's width |
| WordProperties.BitwiseLowDigits | src/types/impls.rs:168-226 | the low k digits of a bitwise result are the bitwise result over k digits |
| WordProperties.BitwiseWordAtWidth | src/types/impls.rs:168-226 | a non-flag bitwise result is the bitwise operation over the left operand's own width |
| WordProperties.BitwiseWithItself | src/types/impls.rs:168-226 | x AND x and x OR x give x cut to n bits, and x XOR x gives 0 |
| WordProperties.AndOrWithItself | src/types/impls.rs:168-215 | a AND a and a OR a give back a, except that USIZE comes back as U64 |
| WordProperties.RetagOwnValue | src/types/impls.rs:26-39 | re-tagging a word's own value gives the word back, except that USIZE becomes U64 |
| WordProperties.XorWithItself | src/types/impls.rs:217-226 | a ^ a is zero of a's width and kind |
| WordProperties.ShlPastWidthIsZero | src/types/impls.rs:195-204 | shifting left by at least the width (mod 64) gives zero, so a U16 shifted by 16 is 0 |
| WordProperties.ShrPastWidthIsZero | src/types/impls.rs:179-193 | shifting right by at least the width (mod 64) gives zero |
| WordProperties.ShiftByMultipleOf64 | src/types/impls.rs:179-204 | a count that is a multiple of 64 leaves the word unchanged |
| WordProperties.ShiftU16 | src/types/impls.rs:179-204 | a U16 shifted by 16 is 0, and shifted by 64 is unchanged, in both directions |
| WordProperties.SubUndoesAdd | src/types/impls.rs:118-138 | (a + b) - b == a for every non-flag width up to 64 |
| WordProperties.NotTwice | src/types/impls.rs:228-243 | NOT is an involution |
| ByteCell.Byte.Default | src/types/impls.rs:340-347 | a new cell holds the default word |
| ByteCell.Byte.FromDsb | src/types/defs.rs:27-29 | a cell built around a given word holds that word |
| ByteCell.Byte.FromBits | src/types/impls.rs:486-494 | a cell built from digits holds their value cut to a 16-bit word |
| ByteCell.Byte.Read | src/types/impls.rs:350-352 | `read` returns the stored word and never fails |
| ByteCell.Byte.Write | src/types/impls.rs:353-361 | stores the data; reports the old value as `previous`, the default word as `result` and no carry |
| ByteCell.Byte.Replace | src/types/impls.rs:362-373 | the shared step of every operation: store the new word; report old value, new value and no carry |
| ByteCell.Byte.Add | src/types/impls.rs:362-373 | stores old + data; reports previous = old, result = stored value, carry = false |
| ByteCell.Byte.Sub | src/types/impls.rs:374-389 | stores old - data, with the same report |
| ByteCell.Byte.Mul | src/types/impls.rs:390-401 | stores old * data, with the same report |
| ByteCell.Byte.Div | src/types/impls.rs:402-413 | stores old / data (zero for a zero divisor), with the same report |
| ByteCell.Byte.BitAnd | src/types/impls.rs:414-424 | stores old & data, with the same report |
| ByteCell.Byte.BitOr | src/types/impls.rs:425-435 | stores old OR data, with the same report |
| ByteCell.Byte.BitXor | src/types/impls.rs:436-446 | stores old ^ data, with the same report |
| ByteCell.Byte.BitNot | src/types/impls.rs:447-457 | stores !old, with the same report |
| ByteCell.Byte.BitShl | src/types/impls.rs:458-470 | stores old << data, with the same report |
| ByteCell.Byte.BitShr | src/types/impls.rs:471-483 | stores old >> data, with the same report |
| ByteCell.WriteThenRead | src/types/impls.rs:350-361 | after `write`, `previous` is the old value and a following `read` returns exactly the data written |
| ByteCell.AddToWord | src/types/impls.rs:362-373 | adding to a 16-bit cell wraps mod 2^16; the report is Ok, with previous = old, result = the new cell and no carry |
| BitsConversion.BitsValue | src/types/impls.rs:499-512 | the most-significant-first reading of a digit sequence is below 2^length |
| BitsConversion.MsbFirstValue | src/types/impls.rs:515-570 | the w-digit MSB-first expansion of x reads back as x mod 2^w |
| BitsConversion.ReversedLsbFirst | src/types/impls.rs:523-529 | pushing least-significant bits and then reversing gives the MSB-first expansion |
| BitsConversion.FromDsb | src/types/impls.rs:515-570 | `Bits::from` has exactly `get_size` digits (64 for USIZE), each 0 or 1, most significant first |
| BitsConversion.AsDecimal | src/types/impls.rs:499-512 | the loop computes the digits' value modulo 2^64 |
| BitsConversion.DecimalOfDigits | src/types/impls.rs:499-570 | the value of a word's digits, cut to 64 bits, is its `as_usize` |
| BitsConversion.DecimalRoundTrip | src/types/impls.rs:499-570 | `Bits::from(d).as_decimal() == d.as_usize()` for every word |
| BitsConversion.ToWord | src/types/impls.rs:104-116 | digits become a U16 holding their value mod 2^16 |
| BitsConversion.WordRoundTrip | src/types/impls.rs:104-116 | a U16 turned into digits and back is unchanged |
| Text.AsciiLower | src/types/impls.rs:630 | upper-case ASCII letters move to lower case; every other character is kept |
| Text.AsciiUpper | src/types/impls.rs:799 | lower-case ASCII letters move to upper case; every other character is kept |
| Text.ToLower | src/types/impls.rs:630 | the string is mapped character by character, and its length is kept |
| Text.ToUpper | src/types/impls.rs:799 | the string is mapped character by character, and its length is kept |
| Text.TrimStart | src/interpreter/collection/azm.rs:71 | the longest suffix that does not begin with white space; everything dropped is white space |
| Text.TrimEnd | src/interpreter/collection/azm.rs:71 | the longest prefix that does not end with white space; everything dropped is white space |
| Text.Trim | src/interpreter/collection/azm.rs:71 | `trim` never lengthens the line, and a non-empty result neither starts nor ends with white space |
| Text.TrimFirst | src/interpreter/collection/azm.rs:71-76 | the trimmed line is empty iff the line is all white space; otherwise it starts with the first visible character |
| Text.Lines | src/interpreter/collection/azm.rs:66-67 | no line that `lines` yields contains '\n' |
| Text.LinesCount | src/interpreter/collection/azm.rs:66-67 | `lines` yields one line per '\n', plus one for a final line without '\n' |
| RegisterFile.RegisterKey | src/types/impls.rs:624-641 | an empty name has no key; otherwise the key is the name in lower case, with the last character dropped from a g/G name of three UTF-8 bytes |
| RegisterFile.GeneralPurposeShape | src/types/impls.rs:633-641 | a g/G name of three bytes is three ASCII characters, or g and one two-byte character |
| RegisterFile.ByteLengthExamples | src/types/impls.rs:633-641 | "g" followed by U+00E9 (three bytes) looks up "g"; "ga" followed by U+00E9 (four bytes) is looked up whole |
| Text.Utf8Width | src/types/impls.rs:633 | a character takes 1 to 4 bytes, and 1 exactly when it is ASCII |
| Text.Utf8LengthBounds | src/types/impls.rs:633 | a string's byte length is at least its character count, and equal to it iff the string is ASCII |
| Text.Utf8LengthIgnoresCase | src/types/impls.rs:630-633 | names equal up to ASCII case have the same byte length |
| RegisterFile.LookupFinds | src/types/impls.rs:643-664 | `get` finds a register iff the name is non-empty and its key is stored, and returns the register under that key |
| RegisterFile.Lookup | src/types/impls.rs:624-664 | a register is found iff the name is non-empty and its normalised key is stored, and the one found is the one stored under that key |
| RegisterFile.Registers.Get | src/types/impls.rs:624-664 | `get` on the register file object finds a register iff the name is non-empty and its key is stored, and returns the one under that key |
| RegisterFile.EmptyNameFindsNothing | src/types/impls.rs:625-628 | the empty name finds nothing |
| RegisterFile.LookupIgnoresCase | src/types/impls.rs:630-641 | two names that agree up to ASCII case find the same register |
| RegisterFile.GeneralPurposeAlias | src/types/impls.rs:632-641 | a g/G name of three bytes reaches its GeneralPurposeTarget: "g" plus its lower-cased second letter for "gXn" |
| RegisterFile.GeneralPurposeExample | src/interpreter/collection/tests.rs:76-95 | "GAA", "gab" and "ga" reach the same register |
| RegisterFile.UnreachableKeys | src/types/impls.rs:630-641 | a stored key with an upper-case letter, or three ASCII characters starting with 'g', is never reached |
| RegisterFile.LookupAfterStore | src/types/impls.rs:617-664 | after a store under a key, every name that normalises to that key finds the new value, and every other name finds what it found before |
| RegisterFile.Registers.constructor | src/types/defs.rs:66-68 | an empty register file |
| RegisterFile.Registers.Insert | src/types/impls.rs:618-620 | `insert` adds or overwrites the entry under the register's name and nothing else |
| RegisterFile.Registers.Write | src/types/impls.rs:603-606 | `write` replaces the stored value of one register |
| RegisterFile.Registers.Inc | src/types/impls.rs:608-611 | `inc` stores the register plus U32(1), with the register's own width |
| RegisterFile.IncWord | src/types/impls.rs:608-611 | incrementing a U16 wraps mod 2^16 |
| Decode.MnemonicOpCode | src/types/impls.rs:798-819 | a recognised mnemonic is an opcode other than None that prints back as the mnemonic |
| Decode.OpCodeFromStr | src/types/impls.rs:798-824 | success gives an opcode other than None that prints as the upper-cased input; failure is the Decode error "Failed to parse OpCode" |
| Decode.OpCodeRoundTrip | src/types/impls.rs:767-824 | `from_str(as_string(op)) == op` for every op except None, whose "" is rejected |
| Decode.MnemonicRoundTrip | src/types/impls.rs:767-819 | every opcode's printed name is recognised as that opcode |
| Decode.OpCodeFromStrExactly | src/types/impls.rs:798-824 | `from_str(s)` is op iff the upper-cased s is op's name |
| Decode.OpCodeFromStrIgnoresCase | src/types/impls.rs:799 | parsing is case-insensitive |
| Decode.OpCodeAsString | src/types/impls.rs:768-792 | the name is empty exactly for None, and otherwise made of upper-case letters |
| Decode.ArgTypeAsString | src/types/impls.rs:830-840 | None prints as "" and Error as "Error"; an Immediate or MemAddr prints as the decimal digits of its value; a Register prints its name and a Symbol its letters |
| Decode.DigitValue | src/types/impls.rs:868-879 | a digit's value is below the radix; in base 10 exactly the characters 0-9 are digits |
| Decode.ParseUnsigned | src/types/impls.rs:868-879 | `usize` parsing succeeds iff an optional '+' is followed by one or more digits whose value fits in 64 bits, and it returns that value |
| Decode.DecimalDigit | src/types/impls.rs:835 | the character printed for a digit value parses back to it |
| Decode.DecimalString | src/types/impls.rs:835 | printing a number gives a non-empty digit string without leading zeros |
| Decode.DecimalStringValue | src/types/impls.rs:835 | the printed digits read back as the number |
| Decode.ArgTypeFromString | src/types/impls.rs:851-894 | the first-match rules: empty or '#' gives None; all letters gives Register; a "0x" prefix gives MemAddr of the hex value or Error and never falls through; otherwise a decimal usize gives Immediate of its value; otherwise '.' followed by one or more letters gives Symbol of the letters; every other input gives Error, each rule an iff |
| Decode.ImmediateRoundTrip | src/types/impls.rs:831-894 | `from_string(as_string(Immediate(n))) == Immediate(n)` |
| Decode.MemAddrPrintsAsImmediate | src/types/impls.rs:831-894 | a printed MemAddr re-parses as an Immediate, because it prints in decimal without "0x" |
| Decode.RegisterRoundTrip | src/types/impls.rs:831-894 | a register name of letters round-trips |
| Decode.SymbolForms | src/types/impls.rs:851-894 | ".name" parses as Symbol(name), while the printed Symbol (no '.') re-parses as a Register |
| Decode.HexAddressExample | src/types/impls.rs:868-874 | "0x2A" and "0x2a" are MemAddr(42) |
| Decode.PlusSignExample | src/types/impls.rs:868-879 | "+5" is Immediate(5) and "0x+ff" is MemAddr(255), as Rust's parsers accept a '+' |
| Decode.ErrorExamples | src/types/impls.rs:851-894 | "0x", "0xG1", ".", ".1" and "12a" are Error; "# note" is None |
| Decode.OverflowIsError | src/types/impls.rs:876-893 | a decimal too large for 64 bits is Error |
| Operands.GetOperandValue | src/interpreter/collection/opcode_fn.rs:4-38 | a Register reads the register `get` finds, or gives a RegisterRead error; an Immediate is a U16 of its value mod 2^16 (the `as u16` reading under Left out); a MemAddr reads the stored cell, or gives MemoryRead; Symbol, None and Error give Decode errors |
| Operands.OperandFailsExactly | src/interpreter/collection/opcode_fn.rs:4-38 | resolution fails exactly for an unknown register, an unstored address, a Symbol, None or Error |
| Operands.ImmediateIgnoresState | src/interpreter/collection/opcode_fn.rs:19 | an Immediate's value does not depend on registers or memory; below 2^16 it is exact |
| Operands.RegisterOperandAfterStore | src/interpreter/collection/opcode_fn.rs:10-18 | after a store under a name's key, the operand resolves to the stored value |
| Operands.GeneralPurposeOperand | src/interpreter/collection/opcode_fn.rs:10-18 | a "gXn" operand resolves exactly as "gx" does (its GeneralPurposeTarget) |
| ReferenceOps.Locate | src/types/impls.rs:624-664 | the stored key that the register file's `get` reaches for a name, if any |
| ReferenceOps.FreshMemory | src/interpreter/collection/opcode_fn.rs:161-162 | the `Memory::new()` that ADD reads from: 2048 zero words |
| ReferenceOps.OperandAgreesWithLive | src/interpreter/collection/opcode_fn.rs:4-38 | on 16-bit cells, the reference operand read agrees with the live `get_operand_value` |
| ReferenceOps.Destination | src/interpreter/collection/opcode_fn.rs:43-75 | a Register arg3 is chosen iff it is stored, otherwise its lookup error; with arg3 omitted or None, a Register arg1 is chosen iff it is stored, otherwise its lookup error, and a non-register arg1 is an Execute error; any other arg3 is an Execute error |
| ReferenceOps.SignBit | src/interpreter/collection/opcode_fn.rs:207-210 | bit 15 of a word |
| ReferenceOps.Signed | src/interpreter/collection/opcode_fn.rs:560-562 | the two's-complement reading of a word: in i16 range, negative iff bit 15 is set, and congruent to the word mod 2^16 |
| ReferenceOps.WriteFlag | src/interpreter/collection/opcode_fn.rs:182-188 | a flag write succeeds iff its register exists and stores 1 or 0 there (the `write_bool` reading under Left out); otherwise it is a RegisterRead error |
| ReferenceOps.ArithPlan | src/interpreter/collection/opcode_fn.rs:585-613 | success means arg1 is a register, both operands resolve, a DIV divisor is non-zero and the destination is found; a non-register arg1 and a zero divisor give their Execute errors |
| ReferenceOps.LogicPlan | src/interpreter/collection/opcode_fn.rs:316-337 | a successful AND/OR/XOR plan names a destination that exists |
| ReferenceOps.Operand | src/interpreter/collection/opcode_fn.rs:4-38 | an operand resolves iff it is a stored register, an immediate or an address inside memory; a register gives its stored word, a memory address its cell, an immediate below 2^16 itself |
| ReferenceOps.ArithResult | src/interpreter/collection/opcode_fn.rs:154-659 | the `wrapping_*` result of each of add, sub, mul and div: ADD and SUB wrap at most once past 2^16; MUL is the product reduced by a multiple of 2^16; DIV is the quotient rounded down |
| ReferenceOps.ArithFlags | src/interpreter/collection/opcode_fn.rs:154-659 | the flags add, sub, mul and div compute: zero iff the result is 0, negative iff bit 15 of the result is set, carry iff the 16-bit result differs from the exact sum, difference or product, or the division leaves a remainder |
| ReferenceOps.SetFlags | src/interpreter/collection/opcode_fn.rs:180-218 | the flag writes keep the set of registers, and a failure is a RegisterRead error |
| ReferenceOps.Commit | src/interpreter/collection/opcode_fn.rs:180-224 | the register set is kept, and on success the destination holds the result |
| ReferenceOps.Arithmetic | src/interpreter/collection/opcode_fn.rs:154-659 | ADD, SUB, MUL, DIV keep the register set; an error before the writes leaves the registers unchanged; on success the destination holds the planned result |
| ReferenceOps.Logic | src/interpreter/collection/opcode_fn.rs:316-398 | AND, OR, XOR keep the register set; a failure changes nothing; success needs two register operands and changes only the destination |
| ReferenceOps.Not | src/interpreter/collection/opcode_fn.rs:400-412 | succeeds iff arg1 is a stored register; then that register holds 0xFFFF minus its old word and nothing else changes; a failure changes nothing |
| ReferenceOps.Shift | src/interpreter/collection/opcode_fn.rs:414-472 | SHL and SHR succeed iff arg1 is a stored register and the amount is an immediate or omitted; only that register changes, and a failure changes nothing |
| ReferenceOps.ShiftAmount | src/interpreter/collection/opcode_fn.rs:420-430 | the amount is the immediate, or 1 when omitted; any other operand is an Execute error |
| ReferenceOps.ShiftWord | src/interpreter/collection/opcode_fn.rs:434-435 | a shift by a multiple of 16 keeps the word, and a right shift is division by 2 to the amount rounded down |
| ReferenceOps.WdmPixel | src/interpreter/collection/opcode_fn.rs:474-502 | the pixel write happens iff all three operands resolve, and the alpha byte is the low byte of the second operand |
| ReferenceFlags.NegativeIsSign | src/interpreter/collection/opcode_fn.rs:189-196 | bit 15 of the result is set iff its signed reading is negative |
| ReferenceFlags.AddFlagsMeaning | src/interpreter/collection/opcode_fn.rs:180-217 | ADD: carry iff the unsigned sum wrapped; zero iff the sum is 0 mod 2^16; overflow iff the signed sum leaves i16, and otherwise the result is the signed sum |
| ReferenceFlags.SubFlagsMeaning | src/interpreter/collection/opcode_fn.rs:226-298 | SUB: carry iff it borrowed; zero iff the operands are equal; overflow iff the signed difference leaves i16, and otherwise the result is the signed difference |
| ReferenceFlags.MulFlagsMeaning | src/interpreter/collection/opcode_fn.rs:532-570 | MUL: carry iff the product did not fit in 16 bits; overflow iff the signed result is not the signed product |
| ReferenceFlags.TruncDivRange | src/interpreter/collection/opcode_fn.rs:641-645 | a signed 16-bit quotient overflows only for -32768 / -1 |
| ReferenceFlags.DivFlagsMeaning | src/interpreter/collection/opcode_fn.rs:608-652 | DIV: the result is the unsigned quotient; carry iff there is a remainder; overflow iff the signed quotient does not fit |
| ReferenceFlags.DivOverflowExample | src/interpreter/collection/opcode_fn.rs:641-645 | 0x8000 / 0xFFFF stores 0 yet sets overflow |
| ReferenceEffects.WriteFlagFrame | src/interpreter/collection/opcode_fn.rs:182-188 | a flag write keeps the register names and changes only the flag's register |
| ReferenceEffects.SetFlagsEffect | src/interpreter/collection/opcode_fn.rs:180-218 | the four flag writes succeed iff all four flag registers exist; a failure is RegisterRead; no other register changes |
| ReferenceEffects.ArithmeticEffect | src/interpreter/collection/opcode_fn.rs:154-224 | a failed plan writes nothing; success needs the flags, and writes the flags then the result into the destination; on failure only flag registers may have changed |
| ReferenceEffects.DivByZeroWritesNothing | src/interpreter/collection/opcode_fn.rs:600-606 | a zero divisor is "Division by zero" before any flag or destination write |
| ReferenceEffects.DivByZeroExample | src/interpreter/collection/tests.rs:284-297 | DIV gaa, 0 fails with "Division by zero" and leaves the registers unchanged |
| ReferenceEffects.AddImmediateExample | src/interpreter/collection/tests.rs:75-93 | "ADD gab, 8" with "ga" holding 8 and the flag registers present succeeds and leaves 16 in "ga" |
| ReferenceEffects.LogicEffect | src/interpreter/collection/opcode_fn.rs:316-398 | AND/OR/XOR succeed iff both operands are existing registers and the destination is found, then write only the destination; a failure writes nothing |
| ReferenceEffects.SelfCombination | src/interpreter/collection/opcode_fn.rs:316-398 | XOR of a register with itself clears it, and AND with itself leaves everything unchanged |
| ReferenceEffects.NotTwiceRestores | src/interpreter/collection/opcode_fn.rs:400-412 | NOT keeps the register names, a failure writes nothing, and applying NOT twice restores the registers |
| ReferenceEffects.ShiftEffect | src/interpreter/collection/opcode_fn.rs:414-472 | a shift succeeds iff arg1 is an existing register and arg2 is an Immediate or omitted (amount 1); it writes only the target |
| ReferenceEffects.ShiftLeftThenRight | src/interpreter/collection/opcode_fn.rs:414-472 | shifting left then right by k < 16 keeps the low 16 - k bits |
| ReferenceEffects.WdmChannels | src/interpreter/collection/opcode_fn.rs:474-502 | WDM succeeds iff all three operands resolve; red and green are the high and low bytes of operand 1, blue and alpha of operand 2, x and y of operand 3 |
| ReferenceMachine.Machine.constructor | src/interpreter/collection/opcode_fn.rs:154-159 | the machine holds the given register file |
| ReferenceMachine.Machine.WriteFlag | src/interpreter/collection/opcode_fn.rs:182-188 | the in-place flag write does what ReferenceOps.WriteFlag describes, and a failure changes nothing |
| ReferenceMachine.Machine.SetFlags | src/interpreter/collection/opcode_fn.rs:180-218 | the four in-place flag writes, in source order, match ReferenceOps.SetFlags |
| ReferenceMachine.Machine.Arithmetic | src/interpreter/collection/opcode_fn.rs:154-224 | in-place ADD/SUB/MUL/DIV match the reference outcome |
| ReferenceMachine.Machine.Commit | src/interpreter/collection/opcode_fn.rs:180-224 | the flag writes and then the destination write match ReferenceOps.Commit |
| ReferenceMachine.Machine.Logic | src/interpreter/collection/opcode_fn.rs:316-398 | in-place AND/OR/XOR match the reference outcome |
| ReferenceMachine.Machine.Not | src/interpreter/collection/opcode_fn.rs:400-412 | in-place NOT matches the reference outcome |
| ReferenceMachine.Machine.Shift | src/interpreter/collection/opcode_fn.rs:414-472 | in-place SHL/SHR match the reference outcome |
| ReferenceMachine.Machine.Wdm | src/interpreter/collection/opcode_fn.rs:474-502 | a failed operand read leaves the display unchanged; otherwise exactly the unpacked pixel now holds the unpacked colour |
| Azm.WithBasic | src/interpreter/collection/azm.rs:22-41 | the basic registers: pc, "mar" and "mdr" hold a zero word, the four flags hold Flag(false), and other keys are kept |
| Azm.AfterSetup | src/interpreter/collection/azm.rs:19-55 | after bring-up the keys are the old ones plus the basic and general-purpose names; general-purpose and non-flag basic registers are zero words; flags are false; other keys are kept |
| Azm.SetupRegisters | src/interpreter/collection/azm.rs:19-55 | the seven inserts and the general-purpose loop leave exactly AfterSetup of the old map |
| Azm.InsertGeneralPurpose | src/interpreter/collection/azm.rs:46-52 | the loop inserts "ga", "gb", ... as zero words over the old map |
| Azm.GeneralPurposeReachable | src/interpreter/collection/azm.rs:46-52 | after bring-up every general-purpose register is found, as a zero word, by its name and by every "gXn" spelling |
| Azm.BasicReachable | src/interpreter/collection/azm.rs:22-41 | after bring-up a basic name already in lower case is found, holding Flag(false) for a flag and a zero word otherwise |
| Azm.UpperCaseNameUnreachable | src/interpreter/collection/azm.rs:22-26 | a register inserted under a name with an upper-case letter is never found by `get` |
| Azm.SkippableByTrim | src/interpreter/collection/azm.rs:71-76 | a line is skipped iff its trimmed text is empty or starts with '#' or '.' |
| Azm.LineIsSkippable | src/interpreter/collection/azm.rs:71-76 | the trim-based test decides exactly the skippable lines |
| Azm.NextInstruction | src/interpreter/collection/azm.rs:69-87 | an instruction line found from a start index lies at or after it and within the text |
| Azm.NextInstructionMeaning | src/interpreter/collection/azm.rs:69-87 | the line found is the first non-skippable line at or after the start; none is found iff every line from there on is skippable |
| Azm.IncTimesU16 | src/interpreter/collection/azm.rs:77-81 | n increments of a U16 program counter add n mod 2^16 |
| Azm.Fetch | src/interpreter/collection/azm.rs:59-90 | Some iff an instruction line remains; only the program counter changes, advanced once per line read |
| Azm.ReadLines | src/interpreter/collection/azm.rs:66-89 | the loop over lines increments pc once per line read, stopping after the first instruction line |
| Azm.FetchStopsPastInstruction | src/interpreter/collection/azm.rs:81-89 | when an instruction line is found, pc becomes its index + 1 (mod 2^16) |
| Azm.FetchAtEnd | src/interpreter/collection/azm.rs:69-86 | with no instruction line left, pc ends at the line count, or is unchanged if it was already past the end |
| AzmFileScan.Stop | src/types/impls.rs:693-731 | the scan stops within the bytes to scan, after at most line_budget newlines, and before the end only after exactly line_budget newlines, each stop following a '\n' |
| AzmFileScan.StopCompose | src/types/impls.rs:683-734 | scanning with budget b1 then b2 ends where one scan with b1 + b2 does |
| AzmFileScan.StartsBetweenShape | src/types/impls.rs:723-726 | new line starts are strictly increasing, each just after a '\n' and before the end |
| AzmFileScan.PrependZero | src/types/impls.rs:684-686 | 0 followed by the recorded starts is a valid line table |
| AzmFileScan.StartsBetweenComplete | src/types/impls.rs:723-726 | every '\n' before the end of the scanned range starts a recorded line |
| AzmFileScan.StartsBetweenJoin | src/types/impls.rs:683-734 | the starts recorded by two consecutive scans are those of one scan over both ranges |
| AzmFileScan.LineBegin | src/types/impls.rs:689-698 | the buffered line began right after the last '\n' |
| AzmFileScan.LabelName | src/types/impls.rs:707-718 | a label's name is the line without its '.' and its trailing "\n" or "\r\n" |
| AzmFileScan.LineEnd | src/types/impls.rs:742-750 | the end of a line is the next '\n' or the end of the text |
| AzmFileScan.GetLineOf | src/types/impls.rs:736-761 | `get_line` is None iff the index is at least logical_lines; otherwise it is a slice of the text at that line's start |
| AzmFileScan.AsWrittenLineText | src/types/impls.rs:736-761 | for every fully scanned text: nothing while fewer than two lines are recorded; every line but the last is its text up to the line feed, as in the corrected version; the last line stops one byte before the end of the text, and agrees with the corrected line iff the text ends in a line feed |
| AzmFileScan.GetLineFixedOf | src/types/impls.rs:736-761 | the corrected `get_line`: None iff the index is past the table, otherwise a slice of the text at that line's start |
| AzmFileScan.AllStarts | src/types/impls.rs:683-734 | the full line table is valid: it starts at 0, is strictly increasing and is in range |
| AzmFileScan.FixedLineIsLineText | src/types/impls.rs:736-761 | the corrected `get_line` returns exactly the line's text up to its '\n' or the end |
| AzmFileScan.NoNewlineBeforeNextStart | src/types/impls.rs:723-726 | no '\n' lies inside a line before the next recorded start |
| AzmFileScan.ScanByte | src/types/impls.rs:696-730 | one byte of the scan extends the line table, the line buffer and the labels as the whole-range definitions say |
| AzmFileScan.ScanLines | src/types/impls.rs:693-731 | the loop stops where Stop says, and records the line starts and labels of the scanned range |
| AzmFileScan.AzmFile.constructor | src/types/impls.rs:684-686 | a new file has scanned nothing, with no line table and no logical lines |
| AzmFileScan.AzmFile.ScanChunk | src/types/impls.rs:683-734 | `scan_chunk` advances bytes_scanned to Stop(...), appends the starts of the new lines (after 0 on the first call), and returns the labels with their line indices |
| AzmFileScan.AzmFile.GetLine | src/types/impls.rs:736-761 | None iff the index is at least logical_lines; otherwise the bytes from the line's start to one before the next start, or one before the end of the text for the last line; every line but the last agrees with GetLineFixed |
| AzmFileScan.AzmFile.GetLineFixed | src/types/impls.rs:736-761 | the corrected `get_line` on the scanned file |
| AzmFileScan.GetLineDropsLastByte | src/types/impls.rs:745-756 | for "a\nb", line 1 as written is "" while the corrected one is "b" |
| AzmFileScan.SingleLineHasNoLogicalLine | src/types/impls.rs:723-726 | for "nop\n", line 0 as written is None while the corrected one is "nop" |
| BitRegisters.Init | src/types.rs:14-18 | `Register::init(n)` has exactly n digits, all 0 |
| BitRegisters.Read | src/types.rs:25-29 | `read` returns a copy of the digits |
| BitRegisters.ReadInit | src/types.rs:14-29 | reading a new register gives n zeros |
| BitRegisters.Registers.constructor | src/types.rs:40-44 | `Registers::new` is empty |
| BitRegisters.Registers.Insert | src/types.rs:50-52 | `insert` adds or overwrites one name and keeps every other |
| BitRegisters.BitToString | src/types.rs:59-67 | 0 prints "0", 1 prints "1", anything else "?" |
| BitRegisters.NewMemory | src/types.rs:76-81 | `Memory::new` holds MEMORY_SIZE_BYTES zero words |
| Systems.GeneralPurposeName | src/systems.rs:42-45 | the i-th general-purpose name is "g" followed by the i-th letter |
| Systems.GeneralPurposeNamesDistinct | src/systems.rs:42-49 | different indices give different names |
| Systems.WithBasic | src/systems.rs:14-36 | "ir" gets INSTRUCTION_WIDTH zero bits; "pc", "mar" and "mdr" get CPU_BITTAGE bits; "zf", "cf", "of" and "nf" get 1 bit |
| Systems.AfterSetup | src/systems.rs:10-56 | after bring-up the basic registers have their widths, and every general-purpose register has CPU_BITTAGE zero bits |
| Systems.WithGeneralPurpose | src/systems.rs:42-49 | the loop adds the first n general-purpose names with the given value and keeps every other key |
| Systems.SetupRegisters | src/systems.rs:10-56 | the inserts and the loop leave exactly AfterSetup of the old map |
| Systems.SetupNamesDistinct | src/systems.rs:19-48 | the eight fixed names and the general-purpose names are pairwise distinct |
| Systems.FirstFourNames | src/systems.rs:42-49 | with N = 4 the general-purpose names are "ga", "gb", "gc" and "gd" |
| Systems.SetupCount | src/systems.rs:10-56 | bring-up on an empty map gives exactly 8 + N registers |
| DisplayStore.InitColor | src/display/mod.rs:36 | pixel (x, y) starts as [(x+100) mod 256, 100, (y+100) mod 256, 255] |
| DisplayStore.FillInitPattern | src/display/mod.rs:32-41 | the nested loops give every pixel its initial colour |
| DisplayStore.DisplayMemory.constructor | src/display/mod.rs:32-41 | `init` makes a width-by-height store in the initial pattern |
| DisplayStore.DisplayMemory.GetPixel | src/display/mod.rs:70-87 | Ok iff both indices are in range, with the stored colour; the x error is checked first |
| DisplayStore.DisplayMemory.SetPixel | src/display/mod.rs:43-68 | x is checked against the width before y against the height, each failing with its Display error; success writes only (x, y), and a failure changes nothing |
| DisplayStore.DisplayMemory.ResetDisplay | src/display/mod.rs:90-92 | reset restores the initial pattern everywhere |
| DisplayStore.AsWrittenInitLeavesBounds | src/display/mod.rs:26-36 | with the declared [[_; W]; H] shape, a non-square display has an in-range (x, y) whose cell does not exist |
| DisplayStore.AsWrittenSafeWhenSquare | src/display/mod.rs:26-36 | with a square display every (x, y) cell exists |
| DisplayStore.AsWrittenTwoByOne | src/display/mod.rs:26-36 | with width 2 and height 1, pixels[1][0] does not exist |
| LegacyDisplay.LegacyInitColor | src/interpreter/display/mod.rs:29 | pixel (x, y) starts as [x, 0, y, 255] |
| LegacyDisplay.DisplayMemory.constructor | src/interpreter/display/mod.rs:25-34 | `init` fills the 256-by-256 store in the initial pattern |
| LegacyDisplay.DisplayMemory.GetPixel | src/interpreter/display/mod.rs:46-59 | Ok iff x < 256 and y < 256, with the stored colour; x is checked first |
| LegacyDisplay.DisplayMemory.SetPixel | src/interpreter/display/mod.rs:36-44 | always Ok; afterwards (x, y) reads back the colour and every other pixel is unchanged |

## Left out

- Concurrency: the `Mutex`/`Arc` around a cell's value exists only for concurrent access, so a cell is a plain class field.
- The UI, logging, plugin and app bootstrap, and the ECS glue are left out: `auto_step`, and the empty `load_program`, `decode` and `execute` stubs.
- File discovery and hot reload are I/O.
- String rendering is formatting: `DSB::as_string`, `as_hex`, `as_utf8` and the deprecated `as_u128`.
- UTF-8 validation is not modelled. Label names and lines are returned as bytes, where the source's `String::from_utf8(..).unwrap()` would panic on invalid UTF-8.
- The `From` conversions from plain integers (src/types/impls.rs:69-103) are not separate members. `From<usize>` is `Word.FromCpuBittage`.
- MOV, ST and LD (src/interpreter/collection/opcode_fn.rs:129-152, 300-314) are left out. They call `read_section_u16`, `write_section_u16` and `Memory::read`/`write`, none of which is defined in any source file, so their behaviour cannot be stated. For the same reason the reference destination write is modelled as a plain store of the 16-bit result.
- `get_register_mut`, used by the reference opcodes, is not part of this model. It is taken to find registers as `Registers::get` does (`ReferenceOps.Locate`).
- The program-counter and flag register names are parameters (`Constants.RegisterNames`). `DISPLAY_WIDTH` and `DISPLAY_HEIGHT` are parameters of the `DisplayStore.DisplayMemory` constructor.
- Operands.GetOperandValue: `ArgType::Immediate(imm) => Ok(DSB::U16(*imm))` (src/interpreter/collection/opcode_fn.rs:19) puts a `usize` where a `u16` is expected, so the code as written does not compile. The model reads it as `*imm as u16`, the value modulo 2^16.
- ReferenceOps.WriteFlag: `write_bool` (src/interpreter/collection/opcode_fn.rs:188 and the other flag writes) is defined in no source file. The model takes it to store 1 for true and 0 for false and never to fail, so its `?` is dropped.
- Alphabetic and case tests cover ASCII letters only. Unicode `is_alphabetic` and `to_uppercase` are not modelled. White space follows the Unicode White_Space list.
- Debug-build panics on integer overflow are not modelled; release-build wrapping is. The reference SHL/SHR mask their amount to 0..15 (`ReferenceOps.ShiftWord`). `Bits::as_decimal` works modulo 2^64, so a 128-bit value's upper digits are lost.
- Azm.Fetch: requires the program-counter register to exist, where the source panics in `unwrap`.
- Azm.Fetch: `pc.inc().ok()?` cannot fail, because `write` never returns an error, so that early `None` return is not modelled.
- AzmFileScan.AzmFile.ScanChunk: the file's content is always present, where the source would panic in `original.clone().unwrap()` on a missing one.
- The `AzmFile` declaration is not part of this model. Its fields are taken from their uses: content, bytes to scan, bytes scanned, line starts and logical lines.
- The test file `src/interpreter/collection/tests.rs` is not modelled. Only its division-by-zero and register-alias scenarios appear, as `ReferenceEffects.DivByZeroExample` and `RegisterFile.GeneralPurposeExample`.

## Findings

| source | as written | input that shows it | evidently intended | confidence | as-written member | corrected member |
|---|---|---|---|---|---|---|
| src/types/impls.rs:745-756 | `get_line` copies up to one byte before the next start, and for the last line the "next start" is the end of the text | text "a\nb": line 1 comes back as "" | the last line keeps its final byte when no '\n' follows it ("b") | high; not executed | AzmFileScan.GetLineDropsLastByte | AzmFileScan.FixedLineIsLineText |
| src/types/impls.rs:723-726 | `logical_lines` is set only when a second line start is recorded | text "nop\n": `get_line(0)` is None | a one-line program's line 0 can be read | medium; not executed | AzmFileScan.SingleLineHasNoLogicalLine | AzmFileScan.GetLineFixedOf |
| src/display/mod.rs:26-36 | the store is declared `[[_; DISPLAY_WIDTH]; DISPLAY_HEIGHT]` but indexed `pixels[x][y]` with x < DISPLAY_WIDTH | width 2, height 1: `init` writes pixels[1][0], outside the outer dimension of size 1 | the outer dimension has DISPLAY_WIDTH entries | medium; not executed | DisplayStore.AsWrittenInitLeavesBounds | DisplayStore.DisplayMemory.SetPixel |
