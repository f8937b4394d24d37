/**
 * The string primitives of the Rust standard library that the core relies on:
 * ASCII case mapping, the alphabetic test, `str::trim`, `str::lines` and
 * `str::len`, which counts the bytes of the UTF-8 encoding. Characters stand for Unicode scalar values; case mapping and the alphabetic
 * test are restricted to ASCII.
 */
module Text {

  function AsciiLower(c: char): (r: char)
    ensures 'A' <= c <= 'Z' ==> r as int == c as int + 32
    ensures !('A' <= c <= 'Z') ==> r == c
  {
    if 'A' <= c <= 'Z' then (c as int + 32) as char else c
  }

  function AsciiUpper(c: char): (r: char)
    ensures 'a' <= c <= 'z' ==> r as int == c as int - 32
    ensures !('a' <= c <= 'z') ==> r == c
  {
    if 'a' <= c <= 'z' then (c as int - 32) as char else c
  }

  /** The number of bytes UTF-8 encodes a character in. */
  function Utf8Width(c: char): (w: nat)
    ensures 1 <= w <= 4
    ensures w == 1 <==> (c as int) < 0x80
  {
    if (c as int) < 0x80 then 1
    else if (c as int) < 0x800 then 2
    else if (c as int) < 0x1_0000 then 3
    else 4
  }

  /** `str::len`: the length of the UTF-8 encoding, in bytes. */
  function Utf8Length(s: string): nat
  {
    if s == [] then 0 else Utf8Width(s[0]) + Utf8Length(s[1..])
  }

  /** A string takes at least one byte per character, and exactly one each iff it is all ASCII. */
  lemma {:induction false} Utf8LengthBounds(s: string)
    ensures Utf8Length(s) >= |s|
    ensures Utf8Length(s) == |s| <==> forall i :: 0 <= i < |s| ==> (s[i] as int) < 0x80
  {
    if s != [] {
      Utf8LengthBounds(s[1..]);
      if Utf8Length(s) == |s| {
        forall i | 0 <= i < |s|
          ensures (s[i] as int) < 0x80
        {
          if i > 0 {
            assert s[i] == s[1..][i - 1];
          }
        }
      } else if Utf8Width(s[0]) == 1 {
        var i :| 0 <= i < |s[1..]| && (s[1..][i] as int) >= 0x80;
        assert s[i + 1] == s[1..][i];
      }
    }
  }

  /** ASCII case mapping keeps every character's encoded width, so strings equal up to ASCII case have one byte length. */
  lemma {:induction false} Utf8LengthIgnoresCase(a: string, b: string)
    requires |a| == |b|
    requires forall i :: 0 <= i < |a| ==> AsciiLower(a[i]) == AsciiLower(b[i])
    ensures Utf8Length(a) == Utf8Length(b)
  {
    if a != [] {
      assert Utf8Width(a[0]) == Utf8Width(b[0]);
      forall i | 0 <= i < |a[1..]|
        ensures AsciiLower(a[1..][i]) == AsciiLower(b[1..][i])
      {
        assert a[1..][i] == a[i + 1] && b[1..][i] == b[i + 1];
      }
      Utf8LengthIgnoresCase(a[1..], b[1..]);
    }
  }

  /** `to_ascii_lowercase` on a whole string. */
  function ToLower(s: string): (r: string)
    ensures |r| == |s| && forall i :: 0 <= i < |s| ==> r[i] == AsciiLower(s[i])
  {
    if s == [] then [] else [AsciiLower(s[0])] + ToLower(s[1..])
  }

  /** Upper-casing, restricted to ASCII letters. */
  function ToUpper(s: string): (r: string)
    ensures |r| == |s| && forall i :: 0 <= i < |s| ==> r[i] == AsciiUpper(s[i])
  {
    if s == [] then [] else [AsciiUpper(s[0])] + ToUpper(s[1..])
  }

  predicate IsLetter(c: char)
  {
    'a' <= c <= 'z' || 'A' <= c <= 'Z'
  }

  predicate AllLetters(s: string)
  {
    forall i :: 0 <= i < |s| ==> IsLetter(s[i])
  }

  predicate IsDigit(c: char)
  {
    '0' <= c <= '9'
  }

  /** The characters with the Unicode White_Space property, which `str::trim` removes. */
  predicate IsWhiteSpace(c: char)
  {
    || '\U{0009}' <= c <= '\U{000D}'
    || c == ' '
    || c == '\U{0085}'
    || c == '\U{00A0}'
    || c == '\U{1680}'
    || '\U{2000}' <= c <= '\U{200A}'
    || c == '\U{2028}'
    || c == '\U{2029}'
    || c == '\U{202F}'
    || c == '\U{205F}'
    || c == '\U{3000}'
  }

  function TrimStart(s: string): (r: string)
    ensures |r| <= |s| && r == s[|s| - |r|..]
    ensures r == [] || !IsWhiteSpace(r[0])
    ensures forall i :: 0 <= i < |s| - |r| ==> IsWhiteSpace(s[i])
    ensures (forall i :: 0 <= i < |s| ==> IsWhiteSpace(s[i])) ==> r == []
  {
    if s != [] && IsWhiteSpace(s[0]) then TrimStart(s[1..]) else s
  }

  function TrimEnd(s: string): (r: string)
    ensures |r| <= |s| && r == s[..|r|]
    ensures r == [] || !IsWhiteSpace(r[|r| - 1])
    ensures forall i :: |r| <= i < |s| ==> IsWhiteSpace(s[i])
  {
    if s != [] && IsWhiteSpace(s[|s| - 1]) then TrimEnd(s[..|s| - 1]) else s
  }

  /** `str::trim`: the string without its leading and trailing white space. */
  function Trim(s: string): (r: string)
    ensures |r| <= |s|
    ensures r == [] || (!IsWhiteSpace(r[0]) && !IsWhiteSpace(r[|r| - 1]))
  {
    TrimEnd(TrimStart(s))
  }

  /** The trimmed text is empty exactly when the line is all white space; otherwise it starts at the first other character. */
  lemma TrimFirst(s: string)
    ensures Trim(s) == [] <==> forall i :: 0 <= i < |s| ==> IsWhiteSpace(s[i])
    ensures Trim(s) != [] ==> exists k :: 0 <= k < |s| && Trim(s)[0] == s[k] && !IsWhiteSpace(s[k])
                                            && forall i :: 0 <= i < k ==> IsWhiteSpace(s[i])
  {
    var t := TrimStart(s);
    var k := |s| - |t|;
    if Trim(s) == [] {
      assert t == [];
    } else {
      assert Trim(s)[0] == t[0] == s[k];
    }
  }

  /** The index of the first `c` in `s`, or |s| when there is none. */
  function IndexOf(s: string, c: char): (i: nat)
    ensures i <= |s|
    ensures i < |s| ==> s[i] == c
    ensures forall j :: 0 <= j < i ==> s[j] != c
  {
    if s == [] then 0
    else if s[0] == c then 0
    else 1 + IndexOf(s[1..], c)
  }

  /** A line without the carriage return that precedes its line feed. */
  function StripCr(line: string): string
  {
    if line != [] && line[|line| - 1] == '\r' then line[..|line| - 1] else line
  }

  /**
   * `str::lines`: the pieces between line feeds, each without a "\r" that
   * precedes its "\n"; a final line feed does not start an empty line.
   */
  function Lines(s: string): (ls: seq<string>)
    ensures forall k :: 0 <= k < |ls| ==> '\n' !in ls[k]
    decreases |s|
  {
    if s == [] then []
    else
      var i := IndexOf(s, '\n');
      if i == |s| then [s]
      else [StripCr(s[..i])] + Lines(s[i + 1..])
  }

  function Count(s: string, c: char): nat
  {
    if s == [] then 0 else (if s[0] == c then 1 else 0) + Count(s[1..], c)
  }

  lemma CountAppend(a: string, b: string, c: char)
    ensures Count(a + b, c) == Count(a, c) + Count(b, c)
  {
    if a != [] {
      assert (a + b)[0] == a[0] && (a + b)[1..] == a[1..] + b;
      CountAppend(a[1..], b, c);
    } else {
      assert a + b == b;
    }
  }

  /** There is one line per line feed, plus one for unterminated text at the end. */
  lemma {:induction false} LinesCount(s: string)
    ensures |Lines(s)| == Count(s, '\n') + (if s != [] && s[|s| - 1] != '\n' then 1 else 0)
    decreases |s|
  {
    if s != [] {
      var i := IndexOf(s, '\n');
      if i == |s| {
        NoneCounted(s, '\n');
      } else {
        LinesCount(s[i + 1..]);
        assert s == s[..i] + [s[i]] + s[i + 1..];
        NoneCounted(s[..i], '\n');
        CountAppend(s[..i] + [s[i]], s[i + 1..], '\n');
        CountAppend(s[..i], [s[i]], '\n');
        if s[i + 1..] != [] {
          assert s[i + 1..][|s[i + 1..]| - 1] == s[|s| - 1];
        }
      }
    }
  }

  lemma NoneCounted(s: string, c: char)
    requires forall j :: 0 <= j < |s| ==> s[j] != c
    ensures Count(s, c) == 0
  {
    if s != [] {
      NoneCounted(s[1..], c);
    }
  }
}
