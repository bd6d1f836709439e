/**
 Text as the Go code sees it: a string is its bytes, one char per byte. Covers the parts of the
 standard library the modelled code depends on: strings.TrimSpace over UTF-8, ASCII case mapping,
 strconv.Atoi and strconv.Itoa.
 */
module Text {
  import opened Results
  import opened Integers

  // ---------- bytes ----------

  predicate IsAsciiSpace(c: char)
  {
    9 <= c as int <= 13 || c == ' '
  }

  /** unicode.IsSpace(rune(b)) for a byte b. */
  predicate IsSpace(c: char)
  {
    IsAsciiSpace(c) || c as int == 0x85 || c as int == 0xA0
  }

  /** unicode.IsDigit(rune(b)) for a byte b. */
  predicate IsDigit(c: char)
  {
    '0' <= c <= '9'
  }

  /** unicode.IsLetter(rune(b)) for a byte b: ASCII and Latin-1 letters. */
  predicate IsLetter(c: char)
  {
    || 'A' <= c <= 'Z' || 'a' <= c <= 'z'
    || c as int == 0xAA || c as int == 0xB5 || c as int == 0xBA
    || 0xC0 <= c as int <= 0xD6 || 0xD8 <= c as int <= 0xF6 || 0xF8 <= c as int <= 0xFF
  }

  function Upper(c: char): char
  {
    if 'a' <= c <= 'z' then c - 'a' + 'A' else c
  }

  function Lower(c: char): char
  {
    if 'A' <= c <= 'Z' then c - 'A' + 'a' else c
  }

  /**
   ASCII case mapping. It agrees with strings.ToUpper and ToLower wherever the modelled code
   compares the result with an ASCII keyword: no other letter maps into the keywords used.
   */
  function ToUpper(s: string): string
  {
    seq(|s|, i requires 0 <= i < |s| => Upper(s[i]))
  }

  function ToLower(s: string): string
  {
    seq(|s|, i requires 0 <= i < |s| => Lower(s[i]))
  }

  // ---------- strings.TrimSpace ----------

  /** The three-byte encodings of U+1680, U+2000..U+200A, U+2028, U+2029, U+202F, U+205F and U+3000. */
  predicate IsWideSpace(a: char, b: char, c: char)
  {
    || (a as int == 0xE1 && b as int == 0x9A && c as int == 0x80)
    || (a as int == 0xE2 && b as int == 0x80 && (0x80 <= c as int <= 0x8A || c as int == 0xA8 || c as int == 0xA9 || c as int == 0xAF))
    || (a as int == 0xE2 && b as int == 0x81 && c as int == 0x9F)
    || (a as int == 0xE3 && b as int == 0x80 && c as int == 0x80)
  }

  /** Whether two bytes encode U+0085 or U+00A0. */
  predicate IsLatinSpace(a: char, b: char)
  {
    a as int == 0xC2 && (b as int == 0x85 || b as int == 0xA0)
  }

  /** Width in bytes of the white space rune s starts with, 0 if none. */
  function LeadingSpace(s: string): (n: nat)
    ensures n <= |s|
  {
    if |s| >= 1 && IsAsciiSpace(s[0]) then 1
    else if |s| >= 2 && IsLatinSpace(s[0], s[1]) then 2
    else if |s| >= 3 && IsWideSpace(s[0], s[1], s[2]) then 3
    else 0
  }

  function TrailingSpace(s: string): (n: nat)
    ensures n <= |s|
  {
    var k := |s|;
    if k >= 1 && IsAsciiSpace(s[k - 1]) then 1
    else if k >= 2 && IsLatinSpace(s[k - 2], s[k - 1]) then 2
    else if k >= 3 && IsWideSpace(s[k - 3], s[k - 2], s[k - 1]) then 3
    else 0
  }

  function TrimLeft(s: string): string
    decreases |s|
  {
    var n := LeadingSpace(s);
    if n == 0 then s else TrimLeft(s[n..])
  }

  function TrimRight(s: string): string
    decreases |s|
  {
    var n := TrailingSpace(s);
    if n == 0 then s else TrimRight(s[..|s| - n])
  }

  function TrimSpace(s: string): string
  {
    TrimRight(TrimLeft(s))
  }

  /** Text that starts and ends with ASCII that is not white space is left alone. */
  lemma TrimSpaceKeeps(s: string)
    requires s != [] && !IsSpace(s[0]) && !IsSpace(s[|s| - 1])
    requires s[0] as int < 0x80 && s[|s| - 1] as int < 0x80
    ensures TrimSpace(s) == s
  {
  }

  // ---------- numbers ----------

  function DigitValue(c: char): nat
    requires IsDigit(c)
  {
    (c - '0') as int
  }

  function DigitChar(d: nat): (c: char)
    requires d < 10
    ensures IsDigit(c) && DigitValue(c) == d
  {
    '0' + d as char
  }

  predicate AllDigits(s: string)
  {
    forall i :: 0 <= i < |s| ==> IsDigit(s[i])
  }

  function Decimal(s: string): nat
    requires AllDigits(s)
  {
    if s == [] then 0 else Decimal(s[..|s| - 1]) * 10 + DigitValue(s[|s| - 1])
  }

  /** strconv.Atoi on text without a sign: all digits, and the value fits an int. */
  function Atoi(s: string): Option<nat>
  {
    if s != [] && AllDigits(s) && Decimal(s) <= MAX_INT then Some(Decimal(s)) else None
  }

  function Itoa(n: nat): (s: string)
    ensures s != [] && AllDigits(s)
  {
    if n < 10 then [DigitChar(n)] else Itoa(n / 10) + [DigitChar(n % 10)]
  }

  /** A number under fmt's %d. */
  function Format(n: int): string
  {
    if n < 0 then "-" + Itoa(-n) else Itoa(n)
  }

  lemma {:induction false} DecimalOfItoa(n: nat)
    ensures Decimal(Itoa(n)) == n
  {
    if n >= 10 {
      DecimalOfItoa(n / 10);
      var s := Itoa(n);
      assert s[..|s| - 1] == Itoa(n / 10);
    } else {
      assert Decimal([]) == 0;
      assert [DigitChar(n)][..0] == [];
    }
  }

  lemma AtoiOfItoa(n: nat)
    requires n <= MAX_INT
    ensures Atoi(Itoa(n)) == Some(n)
  {
    DecimalOfItoa(n);
  }
}
