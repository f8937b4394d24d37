/**
 * The decode-side text conversions of src/types/impls.rs: opcode mnemonics in
 * both directions, and the operand classifier with its printer. Numbers are
 * read the way Rust's `str::parse::<usize>` and `usize::from_str_radix` read
 * them: an optional leading '+', then at least one digit of the radix, and a
 * value below 2^64.
 */
module Decode {
  import opened Wrappers
  import opened Defs
  import opened Arith
  import opened Text

  // ---------------------------------------------------------------- opcodes

  /** `OpCode::as_string`: the mnemonic; None prints as the empty string. */
  function OpCodeAsString(op: OpCode): (s: string)
    ensures s == [] <==> op == OpCode.None
    ensures forall i :: 0 <= i < |s| ==> 'A' <= s[i] <= 'Z'
  {
    match op
    case None => ""
    case LD => "LD"
    case ST => "ST"
    case SWP => "SWP"
    case MOV => "MOV"
    case ADD => "ADD"
    case SUB => "SUB"
    case MUL => "MUL"
    case DIV => "DIV"
    case NOT => "NOT"
    case WDM => "WDM"
    case AND => "AND"
    case OR => "OR"
    case XOR => "XOR"
    case SHL => "SHL"
    case SHR => "SHR"
    case HALT => "HALT"
    case NOP => "NOP"
    case JMP => "JMP"
    case JIZ => "JIZ"
    case JIN => "JIN"
  }

  const OPCODE_PARSE_ERROR: string := "Failed to parse OpCode"

  /** The opcode whose mnemonic is exactly `u`, if any. */
  function MnemonicOpCode(u: string): (r: Option<OpCode>)
    ensures r.Some? ==> r.value != OpCode.None && OpCodeAsString(r.value) == u
  {
    match u
    case "LD" => Some(LD)
    case "ST" => Some(ST)
    case "SWP" => Some(SWP)
    case "MOV" => Some(MOV)
    case "ADD" => Some(ADD)
    case "SUB" => Some(SUB)
    case "MUL" => Some(MUL)
    case "DIV" => Some(DIV)
    case "NOT" => Some(NOT)
    case "WDM" => Some(WDM)
    case "AND" => Some(AND)
    case "OR" => Some(OR)
    case "XOR" => Some(XOR)
    case "SHL" => Some(SHL)
    case "SHR" => Some(SHR)
    case "HALT" => Some(HALT)
    case "NOP" => Some(NOP)
    case "JMP" => Some(JMP)
    case "JIZ" => Some(JIZ)
    case "JIN" => Some(JIN)
    case _ => Option.None
  }

  /**
   * `OpCode::from_str`: the upper-cased text must be one of the twenty
   * mnemonics; anything else, the empty text included, is a Decode error.
   */
  function OpCodeFromStr(s: string): (r: Result<OpCode, RizeError>)
    ensures r.Ok? ==> r.value != OpCode.None && OpCodeAsString(r.value) == ToUpper(s)
    ensures r.Err? ==> r.error == Decode(OPCODE_PARSE_ERROR)
  {
    match MnemonicOpCode(ToUpper(s))
    case Some(op) => Ok(op)
    case None => Err(Decode(OPCODE_PARSE_ERROR))
  }

  lemma UpperOfUpper(s: string)
    requires forall i :: 0 <= i < |s| ==> 'A' <= s[i] <= 'Z'
    ensures ToUpper(s) == s
  {
  }

  /** Every mnemonic parses back to its opcode; None's empty mnemonic is rejected. */
  lemma OpCodeRoundTrip(op: OpCode)
    ensures op != OpCode.None ==> OpCodeFromStr(OpCodeAsString(op)) == Ok(op)
    ensures op == OpCode.None ==> OpCodeFromStr(OpCodeAsString(op)).Err?
  {
    UpperOfUpper(OpCodeAsString(op));
    MnemonicRoundTrip(op);
  }

  /** Each opcode but None is found again from its own mnemonic. */
  lemma MnemonicRoundTrip(op: OpCode)
    ensures op != OpCode.None ==> MnemonicOpCode(OpCodeAsString(op)) == Some(op)
  {
    match op
    case None =>
    case LD =>
    case ST =>
    case SWP =>
    case MOV =>
    case ADD =>
    case SUB =>
    case MUL =>
    case DIV =>
    case NOT =>
    case WDM =>
    case AND =>
    case OR =>
    case XOR =>
    case SHL =>
    case SHR =>
    case HALT =>
    case NOP =>
    case JMP =>
    case JIZ =>
    case JIN =>
  }

  /** A text parses to an opcode exactly when its upper-cased form is that opcode's mnemonic. */
  lemma OpCodeFromStrExactly(s: string, op: OpCode)
    requires op != OpCode.None
    ensures OpCodeFromStr(s) == Ok(op) <==> ToUpper(s) == OpCodeAsString(op)
  {
    UpperOfUpper(OpCodeAsString(op));
    OpCodeRoundTrip(op);
  }

  /** Parsing ignores ASCII case: a text and its lower-case form parse alike. */
  lemma OpCodeFromStrIgnoresCase(s: string)
    ensures OpCodeFromStr(ToLower(s)) == OpCodeFromStr(s)
  {
    assert ToUpper(ToLower(s)) == ToUpper(s);
  }

  // ---------------------------------------------------------------- numbers

  /** The value of one digit in the radix (10 or 16, either case for hexadecimal letters). */
  function DigitValue(c: char, radix: nat): (d: Option<nat>)
    requires radix == 10 || radix == 16
    ensures d.Some? ==> d.value < radix
    ensures radix == 10 ==> (d.Some? <==> IsDigit(c))
  {
    if '0' <= c <= '9' then Some(c as int - '0' as int)
    else if radix == 16 && 'a' <= c <= 'f' then Some(c as int - 'a' as int + 10)
    else if radix == 16 && 'A' <= c <= 'F' then Some(c as int - 'A' as int + 10)
    else Option.None
  }

  predicate AllDigits(s: string, radix: nat)
    requires radix == 10 || radix == 16
  {
    forall i :: 0 <= i < |s| ==> DigitValue(s[i], radix).Some?
  }

  /** The number a digit string spells, most significant digit first. */
  function DigitsValue(s: string, radix: nat): nat
    requires radix == 10 || radix == 16
    requires AllDigits(s, radix)
  {
    if s == [] then 0
    else DigitsValue(s[..|s| - 1], radix) * radix + DigitValue(s[|s| - 1], radix).value
  }

  const USIZE_LIMIT: nat := 0x1_0000_0000_0000_0000

  /**
   * `usize::from_str_radix` (and `str::parse::<usize>` for radix 10): an
   * optional '+', then one or more digits of the radix, spelling a value
   * below 2^64.
   */
  function ParseUnsigned(s: string, radix: nat): (r: Option<usize>)
    requires radix == 10 || radix == 16
    ensures r.Some? <==> (var ds := if s != [] && s[0] == '+' then s[1..] else s;
                          ds != [] && AllDigits(ds, radix) && DigitsValue(ds, radix) < USIZE_LIMIT)
    ensures r.Some? ==> r.value == DigitsValue(if s[0] == '+' then s[1..] else s, radix)
  {
    if s == [] then Option.None
    else
      var digits := if s[0] == '+' then s[1..] else s;
      if digits == [] then Option.None
      else if !AllDigits(digits, radix) then Option.None
      else
        var v := DigitsValue(digits, radix);
        if v < USIZE_LIMIT then Some(v) else Option.None
  }

  function DecimalDigit(d: nat): (c: char)
    requires d < 10
    ensures IsDigit(c) && DigitValue(c, 10) == Some(d)
  {
    ('0' as int + d) as char
  }

  /** `usize::to_string`: the decimal digits without leading zeros. */
  function DecimalString(n: nat): (s: string)
    ensures s != [] && AllDigits(s, 10)
    ensures s[0] == '0' ==> n == 0 && |s| == 1
  {
    if n < 10 then [DecimalDigit(n)]
    else DecimalString(n / 10) + [DecimalDigit(n % 10)]
  }

  /** Reading the printed digits back gives the number. */
  lemma {:induction false} DecimalStringValue(n: nat)
    ensures DigitsValue(DecimalString(n), 10) == n
  {
    var s := DecimalString(n);
    if n >= 10 {
      DecimalStringValue(n / 10);
      assert s[..|s| - 1] == DecimalString(n / 10);
    }
  }

  // ---------------------------------------------------------------- operands

  /** `ArgType::as_string`: numbers in decimal, names as written, a symbol without its '.'. */
  function ArgTypeAsString(a: ArgType): (s: string)
    ensures a.Immediate? ==> AllDigits(s, 10) && DigitsValue(s, 10) == a.imm
    ensures a.MemAddr? ==> AllDigits(s, 10) && DigitsValue(s, 10) == a.addr
    ensures a.Symbol? ==> s == a.sym
    ensures a.Register? ==> s == a.name
    ensures a.None? ==> s == ""
    ensures a.Error? ==> s == "Error"
  {
    match a
    case None => ""
    case Error => "Error"
    case Immediate(i) => DecimalStringValue(i); DecimalString(i)
    case Register(r) => r
    case MemAddr(m) => DecimalStringValue(m); DecimalString(m)
    case Symbol(s) => s
  }

  predicate StartsWithHexPrefix(arg: string)
  {
    |arg| >= 2 && arg[0] == '0' && arg[1] == 'x'
  }

  /**
   * `ArgType::from_string`, first matching rule wins: empty or a comment
   * ('#') is None; only letters is a Register; a "0x" prefix is a MemAddr or,
   * if the rest is no hexadecimal usize, an Error; a decimal usize is an
   * Immediate; '.' and one or more letters is a Symbol; anything else is an Error.
   */
  function ArgTypeFromString(arg: string): (r: ArgType)
    ensures r.None? <==> arg == [] || arg[0] == '#'
    ensures r.Register? <==> arg != [] && AllLetters(arg)
    ensures r.Register? ==> r.name == arg
    ensures r.MemAddr? <==> StartsWithHexPrefix(arg) && ParseUnsigned(arg[2..], 16).Some?
    ensures r.MemAddr? ==> r.addr == ParseUnsigned(arg[2..], 16).value
    ensures r.Immediate? <==> arg != [] && arg[0] != '#' && !AllLetters(arg) && !StartsWithHexPrefix(arg)
                              && ParseUnsigned(arg, 10).Some?
    ensures r.Immediate? ==> r.imm == ParseUnsigned(arg, 10).value
    ensures r.Symbol? <==> |arg| >= 2 && arg[0] == '.' && AllLetters(arg[1..]) && ParseUnsigned(arg, 10).None?
    ensures r.Symbol? ==> r.sym == arg[1..]
    ensures r.Error? <==> arg != [] && arg[0] != '#' && !AllLetters(arg)
                          && (if StartsWithHexPrefix(arg) then ParseUnsigned(arg[2..], 16).None?
                              else ParseUnsigned(arg, 10).None? && !(|arg| >= 2 && arg[0] == '.' && AllLetters(arg[1..])))
    ensures StartsWithHexPrefix(arg) ==> r.MemAddr? || r.Error?
  {
    if arg == [] then ArgType.None
    else if arg[0] == '#' then ArgType.None
    else if AllLetters(arg) then Register(arg)
    else if StartsWithHexPrefix(arg) then
      match ParseUnsigned(arg[2..], 16)
      case Some(addr) => MemAddr(addr)
      case None => Error
    else
      match ParseUnsigned(arg, 10)
      case Some(imm) => Immediate(imm)
      case None =>
        if arg[0] == '.' then
          if |arg| >= 2 && AllLetters(arg[1..]) then Symbol(arg[1..]) else Error
        else Error
  }

  /** A printed immediate is classified as the same immediate. */
  lemma ImmediateRoundTrip(n: usize)
    ensures ArgTypeFromString(ArgTypeAsString(Immediate(n))) == Immediate(n)
  {
    var s := DecimalString(n);
    DecimalStringValue(n);
    assert !IsLetter(s[0]);
    assert !StartsWithHexPrefix(s) by {
      if |s| >= 2 {
        assert IsDigit(s[1]);
      }
    }
  }

  /** A printed memory address comes back as an immediate: the printer drops the "0x" form. */
  lemma MemAddrPrintsAsImmediate(m: usize)
    ensures ArgTypeFromString(ArgTypeAsString(MemAddr(m))) == Immediate(m)
  {
    ImmediateRoundTrip(m);
  }

  /** A non-empty all-letter register name survives printing and classification. */
  lemma RegisterRoundTrip(name: string)
    requires name != [] && AllLetters(name)
    ensures ArgTypeFromString(ArgTypeAsString(Register(name))) == Register(name)
  {
  }

  /** A symbol is classified from its '.' form, but its printed form (no '.') reads back as a register. */
  lemma SymbolForms(sym: string)
    requires sym != [] && AllLetters(sym)
    ensures ArgTypeFromString(['.'] + sym) == Symbol(sym)
    ensures ArgTypeFromString(ArgTypeAsString(Symbol(sym))) == Register(sym)
  {
    var arg := ['.'] + sym;
    assert arg[1..] == sym;
    assert !IsLetter(arg[0]);
    assert !AllDigits(arg, 10) by {
      assert DigitValue(arg[0], 10).None?;
    }
  }

  /** "0x2A" is the memory address 42; hexadecimal letters may be upper or lower case. */
  lemma HexAddressExample()
    ensures ArgTypeFromString("0x2A") == MemAddr(42)
    ensures ArgTypeFromString("0x2a") == MemAddr(42)
  {
    assert "0x2A"[2..] == "2A" && "2A"[..1] == "2" && "2"[..0] == [];
    assert AllDigits("2A", 16);
    assert DigitsValue("2A", 16) == 42;
    assert "0x2a"[2..] == "2a" && "2a"[..1] == "2";
    assert AllDigits("2a", 16);
    assert DigitsValue("2a", 16) == 42;
  }

  /** A leading '+' is accepted, as Rust's integer parsing accepts it. */
  lemma PlusSignExample()
    ensures ArgTypeFromString("+5") == Immediate(5)
    ensures ArgTypeFromString("0x+ff") == MemAddr(255)
  {
    assert "+5"[1..] == "5" && "5"[..0] == [];
    assert AllDigits("5", 10);
    assert DigitsValue("5", 10) == 5;
    assert !IsLetter("+5"[0]);
    assert "0x+ff"[2..] == "+ff" && "+ff"[1..] == "ff" && "ff"[..1] == "f" && "f"[..0] == [];
    assert AllDigits("ff", 16);
    assert DigitsValue("ff", 16) == 255;
    assert !IsLetter("0x+ff"[0]);
  }

  /** The rejected shapes: a bare or malformed "0x", a lone '.', a '.' before a non-letter, digits followed by letters. */
  lemma ErrorExamples()
    ensures ArgTypeFromString("0x") == Error
    ensures ArgTypeFromString("0xG1") == Error
    ensures ArgTypeFromString(".") == Error
    ensures ArgTypeFromString(".1") == Error
    ensures ArgTypeFromString("12a") == Error
    ensures ArgTypeFromString("# note") == ArgType.None
  {
    assert "0x"[2..] == [];
    assert DigitValue("0xG1"[2], 16).None?;
    assert DigitValue("."[0], 10).None?;
    assert DigitValue(".1"[0], 10).None?;
    assert DigitValue("12a"[2], 10).None?;
  }

  /** Out of range: 2^64 itself is no usize, so it is an Error rather than an Immediate. */
  lemma OverflowIsError(s: string)
    requires s != [] && IsDigit(s[0]) && AllDigits(s, 10) && DigitsValue(s, 10) >= USIZE_LIMIT
    ensures ArgTypeFromString(s) == Error
  {
    assert !IsLetter(s[0]);
    assert !StartsWithHexPrefix(s) by {
      if |s| >= 2 {
        assert IsDigit(s[1]);
      }
    }
  }
}
