/** Digits, white space and decimal numerals, shared by the money and the time parsers. */
module Text {
  import opened Prelude

  // ---------------------------------------------------------------- characters

  const BENGALI_ZERO := '\U{09E6}'
  const BENGALI_NINE := '\U{09EF}'

  predicate IsDigit(c: char) { '0' <= c <= '9' }

  /** White space and line terminators, as the `\s` class and `trim` see them. */
  predicate IsSpace(c: char) {
    || '\t' <= c <= '\r' || c == ' ' || c == '\U{00A0}' || c == '\U{1680}'
    || '\U{2000}' <= c <= '\U{200A}' || c == '\U{2028}' || c == '\U{2029}'
    || c == '\U{202F}' || c == '\U{205F}' || c == '\U{3000}' || c == '\U{FEFF}'
  }

  /** The white space and line terminators of ECMA-262 sections 12.2 and 12.3, one by one. */
  const SPACES: string :=
    "\t\n\U{000B}\U{000C}\r \U{00A0}\U{1680}\U{2000}\U{2001}\U{2002}\U{2003}\U{2004}\U{2005}\U{2006}\U{2007}\U{2008}"
    + "\U{2009}\U{200A}\U{2028}\U{2029}\U{202F}\U{205F}\U{3000}\U{FEFF}"

  lemma SpacesAre(c: char)
    ensures IsSpace(c) <==> c in SPACES
  {
    if '\t' <= c <= '\r' {
      assert SPACES[c as int - 9] == c;
    } else if '\U{2000}' <= c <= '\U{200A}' {
      assert SPACES[8 + c as int - 0x2000] == c;
    } else if IsSpace(c) {
      assert SPACES[5] == ' ' && SPACES[6] == '\U{00A0}' && SPACES[7] == '\U{1680}' && SPACES[19] == '\U{2028}';
      assert SPACES[20] == '\U{2029}' && SPACES[21] == '\U{202F}' && SPACES[22] == '\U{205F}';
      assert SPACES[23] == '\U{3000}' && SPACES[24] == '\U{FEFF}';
    }
  }

  /** The ten Bengali digits read as their values; every other character stays. */
  lemma BengaliDigitsAre(c: char)
    ensures 0x9E6 <= c as int <= 0x9EF ==> IsDigit(AsciiDigit(c)) && DigitValue(AsciiDigit(c)) == c as int - 0x9E6
    ensures !(0x9E6 <= c as int <= 0x9EF) ==> AsciiDigit(c) == c
  {
  }

  function AsciiDigit(c: char): char {
    if BENGALI_ZERO <= c <= BENGALI_NINE then ('0' as int + (c as int - BENGALI_ZERO as int)) as char else c
  }

  function AsciiDigits(s: string): string {
    MapSeq(AsciiDigit, s)
  }

  /** The loop that maps Bengali numerals to ASCII. */
  method ToAsciiDigits(input: string) returns (out: string)
    ensures out == AsciiDigits(input)
  {
    out := "";
    var i := 0;
    while i < |input|
      invariant 0 <= i <= |input|
      invariant |out| == i && forall k :: 0 <= k < i ==> out[k] == AsciiDigit(input[k])
    {
      var code := input[i] as int;
      if BENGALI_ZERO as int <= code <= BENGALI_ZERO as int + 9 {
        out := out + [('0' as int + (code - BENGALI_ZERO as int)) as char];
      } else {
        out := out + [input[i]];
      }
      i := i + 1;
    }
  }

  function TrimLeft(s: string): string {
    if s != "" && IsSpace(s[0]) then TrimLeft(s[1..]) else s
  }

  function TrimRight(s: string): string {
    if s != "" && IsSpace(s[|s| - 1]) then TrimRight(s[..|s| - 1]) else s
  }

  function Trim(s: string): string { TrimRight(TrimLeft(s)) }

  // ---------------------------------------------------------------- decimal numerals

  predicate AllDigits(s: string) {
    forall i :: 0 <= i < |s| ==> IsDigit(s[i])
  }

  function DigitValue(c: char): (d: nat)
    requires IsDigit(c)
    ensures d <= 9
  {
    c as int - '0' as int
  }

  function DigitChar(d: nat): (c: char)
    requires d <= 9
    ensures IsDigit(c) && DigitValue(c) == d
  {
    ('0' as int + d) as char
  }

  function DigitsValue(s: string): nat
    requires AllDigits(s)
    decreases |s|
  {
    if s == "" then 0 else 10 * DigitsValue(s[..|s| - 1]) + DigitValue(s[|s| - 1])
  }

  function Numeral(n: nat): (s: string)
    ensures s != "" && AllDigits(s)
  {
    if n <= 9 then [DigitChar(n)] else Numeral(n / 10) + [DigitChar(n % 10)]
  }

  /** No leading zero, other than in "0" itself. */
  predicate NoLeadingZero(s: string) {
    s != "" && AllDigits(s) && (s[0] == '0' ==> |s| == 1)
  }

  lemma {:induction false} NumeralReadsBack(n: nat)
    ensures DigitsValue(Numeral(n)) == n && NoLeadingZero(Numeral(n))
    ensures n > 0 ==> Numeral(n)[0] != '0'
  {
    if n > 9 {
      NumeralReadsBack(n / 10);
      var s := Numeral(n);
      assert s[..|s| - 1] == Numeral(n / 10);
    } else {
      var s := Numeral(n);
      assert DigitsValue(s[..0]) == 0;
    }
  }

  lemma {:induction false} ValueWritesBack(s: string)
    requires NoLeadingZero(s)
    ensures Numeral(DigitsValue(s)) == s
    ensures s[0] != '0' ==> DigitsValue(s) >= 1
    decreases |s|
  {
    if |s| == 1 {
      assert DigitsValue(s[..0]) == 0;
      assert s == [DigitChar(DigitValue(s[0]))];
    } else {
      var init := s[..|s| - 1];
      ValueWritesBack(init);
      assert s == init + [s[|s| - 1]];
      assert DigitsValue(s) / 10 == DigitsValue(init) && DigitsValue(s) % 10 == DigitValue(s[|s| - 1]);
    }
  }

  function Pow10(n: nat): (r: nat)
    ensures r >= 1
  {
    if n == 0 then 1 else 10 * Pow10(n - 1)
  }

  /** `padStart(2, '0')` of a number below a hundred. */
  function TwoDigits(n: nat): (s: string)
    requires n <= 99
    ensures |s| == 2 && AllDigits(s)
  {
    [DigitChar(n / 10), DigitChar(n % 10)]
  }

  lemma TwoDigitsReadBack(n: nat)
    requires n <= 99
    ensures DigitsValue(TwoDigits(n)) == n
  {
    var s := TwoDigits(n);
    assert DigitsValue(s[..1][..0]) == 0;
    assert s[..1][0] == s[0];
  }

  lemma TwoDigitsWriteBack(s: string)
    requires |s| == 2 && AllDigits(s)
    ensures DigitsValue(s) <= 99 && TwoDigits(DigitsValue(s)) == s
  {
    assert DigitsValue(s[..1][..0]) == 0;
    assert s[..1][0] == s[0];
    assert DigitsValue(s) == 10 * DigitValue(s[0]) + DigitValue(s[1]);
  }

  // ---------------------------------------------------------------- strings the clean-up leaves alone

  /** Digits, points and commas only. */
  predicate Plain(s: string) {
    forall i :: 0 <= i < |s| ==> IsDigit(s[i]) || s[i] == '.' || s[i] == ','
  }

  lemma PlainIsClean(s: string)
    requires Plain(s)
    ensures AsciiDigits(s) == s && Trim(s) == s
  {
  }
}
