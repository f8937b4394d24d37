/**
 * The register file of the word design (src/types/impls.rs): named cells in a
 * map, looked up through a name normalisation and replaced by name. The map
 * holds each register's current word; the model keeps the cell contents
 * rather than shared cell objects.
 */
module RegisterFile {
  import opened Wrappers
  import opened Defs
  import opened Word
  import opened Text

  /** A named cell as it is handed to `Registers::insert`. */
  datatype Register = Register(name: string, value: DSB)

  /** `Register::normal`: a CPU-width cell holding zero. */
  function Normal(name: string): Register
  {
    Register.Register(name, DefaultDsb())
  }

  /** `Register::flag`: a one-bit cell holding false. */
  function FlagRegister(name: string): Register
  {
    Register.Register(name, Flag(false))
  }

  /**
   * The spelling `get` shortens: a name of three bytes (`str::len` counts
   * UTF-8 bytes) whose first character is g or G. That is "gXn" in three
   * ASCII characters, or a g followed by one character of two bytes (the g
   * alone is one byte, so such a name has at least two characters).
   */
  predicate IsGeneralPurposeSpelling(name: string)
  {
    |name| >= 2 && Utf8Length(name) == 3 && AsciiLower(name[0]) == 'g'
  }

  /** A general-purpose spelling is three ASCII characters, or g and one two-byte character. */
  lemma GeneralPurposeShape(name: string)
    requires IsGeneralPurposeSpelling(name)
    ensures |name| == 3 || (|name| == 2 && (name[1] as int) >= 0x80)
    ensures |name| == 3 ==> (name[1] as int) < 0x80
  {
    Utf8LengthBounds(name);
    assert Utf8Length(name) == Utf8Width(name[0]) + Utf8Length(name[1..]);
    Utf8LengthBounds(name[1..]);
    if |name| == 2 {
      assert name[1..] == [name[1]];
      assert Utf8Length(name[1..]) == Utf8Width(name[1]) + Utf8Length(name[1..][1..]);
    }
  }

  /**
   * The key `Registers::get` looks up: nothing for the empty name; otherwise
   * the ASCII-lower-cased name, without its last character when it has the
   * general-purpose spelling.
   */
  function RegisterKey(name: string): (k: Option<string>)
    ensures k.None? <==> name == []
    ensures k.Some? ==> |k.value| == (if IsGeneralPurposeSpelling(name) then |name| - 1 else |name|)
    ensures k.Some? ==> forall i :: 0 <= i < |k.value| ==> k.value[i] == AsciiLower(name[i])
  {
    if name == [] then Option.None
    else
      var filter := ToLower(name);
      if IsGeneralPurposeSpelling(name) then Some(filter[..|filter| - 1]) else Some(filter)
  }

  /** The register a general-purpose spelling reaches: "g" and its lower-cased middle letter, or "g" alone after a two-byte character. */
  function GeneralPurposeTarget(name: string): (t: string)
    requires IsGeneralPurposeSpelling(name)
    ensures |name| == 3 ==> t == ['g', AsciiLower(name[1])]
    ensures |name| != 3 ==> t == ['g']
  {
    if |name| == 3 then ['g', AsciiLower(name[1])] else ['g']
  }

  /** `Registers::get` on the map of cells: the cell stored under the normalised key, if any. */
  function Lookup(all: map<string, DSB>, name: string): (r: Option<DSB>)
    ensures r.Some? <==> name != [] && RegisterKey(name).value in all
    ensures r.Some? ==> r.value == all[RegisterKey(name).value]
  {
    match RegisterKey(name)
    case None => Option.None
    case Some(key) => if key in all then Some(all[key]) else Option.None
  }

  /** Lookup succeeds exactly for a non-empty name whose key is stored, and then yields that cell. */
  lemma LookupFinds(all: map<string, DSB>, name: string)
    ensures Lookup(all, name).Some? <==> name != [] && RegisterKey(name).value in all
    ensures Lookup(all, name).Some? ==> Lookup(all, name).value == all[RegisterKey(name).value]
  {
  }

  /** The empty name never finds a register. */
  lemma EmptyNameFindsNothing(all: map<string, DSB>)
    ensures Lookup(all, []) == Option.None
  {
  }

  /** Names that agree up to ASCII case find the same register. */
  lemma LookupIgnoresCase(all: map<string, DSB>, a: string, b: string)
    requires |a| == |b|
    requires forall i :: 0 <= i < |a| ==> AsciiLower(a[i]) == AsciiLower(b[i])
    ensures Lookup(all, a) == Lookup(all, b)
  {
    if a != [] {
      Utf8LengthIgnoresCase(a, b);
      assert IsGeneralPurposeSpelling(a) == IsGeneralPurposeSpelling(b);
      assert RegisterKey(a).value == RegisterKey(b).value;
    }
  }

  /**
   * Every general-purpose spelling "gXn" reaches the register "gx", whatever
   * n and the case; a g followed by one two-byte character reaches "g".
   */
  lemma GeneralPurposeAlias(all: map<string, DSB>, name: string)
    requires IsGeneralPurposeSpelling(name)
    ensures Lookup(all, name) == Lookup(all, GeneralPurposeTarget(name))
  {
    var short := GeneralPurposeTarget(name);
    GeneralPurposeShape(name);
    assert RegisterKey(name).value == short;
    assert Utf8Length(short) == |short| by {
      Utf8LengthBounds(short);
    }
    assert RegisterKey(short).value == short;
  }

  /** "GAA", "gab" and "ga" all reach the register "ga". */
  lemma GeneralPurposeExample(all: map<string, DSB>)
    ensures Lookup(all, "GAA") == Lookup(all, "gab") == Lookup(all, "ga")
  {
    assert Utf8Length("GAA") == 3 && Utf8Length("gab") == 3 by {
      Utf8LengthBounds("GAA");
      Utf8LengthBounds("gab");
    }
    GeneralPurposeAlias(all, "GAA");
    GeneralPurposeAlias(all, "gab");
  }

  /**
   * The length test counts bytes: g followed by U+00E9 (three bytes) loses
   * its last character, while g, a and U+00E9 (four bytes) is looked up whole.
   */
  lemma ByteLengthExamples()
    ensures RegisterKey("g\U{E9}") == Some("g")
    ensures RegisterKey("ga\U{E9}") == Some("ga\U{E9}")
  {
    assert Utf8Length("g\U{E9}") == 3 by {
      assert "g\U{E9}"[1..] == "\U{E9}" && "\U{E9}"[1..] == [];
    }
    assert Utf8Length("ga\U{E9}") == 4 by {
      assert "ga\U{E9}"[1..] == "a\U{E9}" && "a\U{E9}"[1..] == "\U{E9}" && "\U{E9}"[1..] == [];
    }
    assert ToLower("ga\U{E9}") == "ga\U{E9}";
    assert ToLower("g\U{E9}")[..1] == "g";
  }

  /**
   * A register inserted under a name holding an upper-case ASCII letter, or
   * under a three-character ASCII name starting with 'g', can never be
   * found: no name normalises to such a key.
   */
  lemma UnreachableKeys(key: string, name: string)
    requires (exists i :: 0 <= i < |key| && 'A' <= key[i] <= 'Z') || (|key| == 3 && key[0] == 'g' && Utf8Length(key) == 3)
    ensures RegisterKey(name) != Some(key)
  {
    if RegisterKey(name).Some? {
      var k := RegisterKey(name).value;
      if |key| == 3 && key[0] == 'g' && Utf8Length(key) == 3 {
        if k == key {
          if IsGeneralPurposeSpelling(name) {
            GeneralPurposeShape(name);
          } else {
            Utf8LengthIgnoresCase(name, k);
          }
        }
      } else {
        var i :| 0 <= i < |key| && 'A' <= key[i] <= 'Z';
        if i < |k| {
          assert k[i] != key[i];
        }
      }
    }
  }

  /** After storing v under key, a lookup finds v exactly for names normalising to key; other lookups are unaffected. */
  lemma LookupAfterStore(all: map<string, DSB>, key: string, v: DSB, name: string)
    ensures RegisterKey(name) == Some(key) ==> Lookup(all[key := v], name) == Some(v)
    ensures RegisterKey(name) != Some(key) ==> Lookup(all[key := v], name) == Lookup(all, name)
  {
  }

  /** The register file. */
  class Registers {
    var all: map<string, DSB>

    /** `Registers::default()`: no registers. */
    constructor()
      ensures all == map[]
    {
      all := map[];
    }

    /** `insert`: add the register, or replace the one of the same name; every other name is kept. */
    method Insert(register: Register)
      modifies this
      ensures all == old(all)[register.name := register.value]
    {
      all := all[register.name := register.value];
    }

    /** `get` followed by `read`: the current word of the register the name reaches. */
    function Get(name: string): (r: Option<DSB>)
      reads this
      ensures r.Some? <==> name != [] && RegisterKey(name).value in all
      ensures r.Some? ==> r.value == all[RegisterKey(name).value]
    {
      Lookup(all, name)
    }

    /** `Register::write` on the cell stored under `key`. */
    method Write(key: string, data: DSB)
      requires key in all
      modifies this
      ensures all == old(all)[key := data]
    {
      all := all[key := data];
    }

    /**
     * `Register::inc` on the cell stored under `key`: its word plus the
     * 32-bit one that the integer literal converts to, re-tagged with the
     * cell's width.
     */
    method Inc(key: string)
      requires key in all
      modifies this
      ensures all == old(all)[key := Word.Add(old(all)[key], U32(1))]
    {
      all := all[key := Word.Add(all[key], U32(1))];
    }
  }

  /** Incrementing a 16-bit cell adds one modulo 2^16 and keeps it 16 bits wide. */
  lemma IncWord(h: u16)
    ensures Word.Add(U16(h), U32(1)) == U16((h + 1) % 0x1_0000)
  {
    var r := Word.Add(U16(h), U32(1));
    assert ValueOf(r) == (h + 1) % 0x1_0000;
  }
}
