/** Amounts in integer paisa, read from and written as decimal strings (packages/shared/src/money.ts). */
module Money {
  import opened Prelude
  import opened MatchTypes
  import opened Text

  const PAISA_PER_TAKA := 100
  const TAKA_SIGN := '\U{09F3}'

  datatype MoneyResult = MoneyOk(paisa: int) | Malformed | OutOfRange

  function FromPaisa(paisa: int): MoneyResult {
    if Abs(paisa) > MAX_ABS_PAISA then OutOfRange else MoneyOk(paisa)
  }

  // ---------------------------------------------------------------- fromDecimalString

  function Lower(c: char): char {
    if 'A' <= c <= 'Z' then (c as int + 32) as char else c
  }

  predicate SameIgnoringCase(a: string, b: string) {
    MapSeq(Lower, a) == b
  }

  predicate StartsWith(s: string, unit: string) {
    |unit| <= |s| && SameIgnoringCase(s[..|unit|], unit)
  }

  predicate EndsWith(s: string, unit: string) {
    |unit| <= |s| && SameIgnoringCase(s[|s| - |unit|..], unit)
  }

  function StripPrefix(s: string): string {
    if StartsWith(s, "tk") then TrimLeft(if |s| > 2 && s[2] == '.' then s[3..] else s[2..])
    else if StartsWith(s, "bdt") then TrimLeft(s[3..])
    else if s != "" && s[0] == TAKA_SIGN then TrimLeft(s[1..])
    else s
  }

  function StripSuffix(s: string): string {
    if EndsWith(s, "tk") then TrimRight(s[..|s| - 2])
    else if EndsWith(s, "bdt") then TrimRight(s[..|s| - 3])
    else if s != "" && s[|s| - 1] == TAKA_SIGN then TrimRight(s[..|s| - 1])
    else s
  }

  predicate IsSeparator(c: char) { IsSpace(c) || c == ',' }

  function Squeeze(s: string): string {
    if s == "" then "" else (if IsSeparator(s[0]) then "" else [s[0]]) + Squeeze(s[1..])
  }

  function Clean(input: string): string {
    Squeeze(StripSuffix(StripPrefix(Trim(AsciiDigits(input)))))
  }

  function IndexOf(s: string, c: char): (i: nat)
    ensures i <= |s|
    ensures i < |s| ==> s[i] == c
    ensures forall k :: 0 <= k < i ==> s[k] != c
  {
    if s == "" || s[0] == c then 0 else 1 + IndexOf(s[1..], c)
  }

  /** One or more digits, and then perhaps a point and one or two digits. */
  predicate IsAmount(s: string) {
    var dot := IndexOf(s, '.');
    && dot > 0 && AllDigits(s[..dot])
    && (dot < |s| ==> 1 <= |s| - dot - 1 <= 2 && AllDigits(s[dot + 1..]))
  }

  function Padded(frac: string): string { (frac + "00")[..2] }

  lemma PaddedIsDigits(frac: string)
    requires AllDigits(frac) && |frac| <= 2
    ensures AllDigits(Padded(frac))
  {
  }

  function PaisaOf(cleaned: string): nat
    requires IsAmount(cleaned)
  {
    var dot := IndexOf(cleaned, '.');
    var frac := if dot == |cleaned| then "" else cleaned[dot + 1..];
    PaddedIsDigits(frac);
    DigitsValue(cleaned[..dot]) * PAISA_PER_TAKA + DigitsValue(Padded(frac))
  }

  function FromDecimalString(input: string): MoneyResult {
    if Trim(AsciiDigits(input)) == "" then Malformed
    else
      var cleaned := Clean(input);
      if !IsAmount(cleaned) then Malformed else FromPaisa(PaisaOf(cleaned))
  }

  function ToDecimalString(paisa: int): string {
    var abs := Abs(paisa);
    (if paisa < 0 then "-" else "") + Numeral(abs / PAISA_PER_TAKA) + "." + TwoDigits(abs % PAISA_PER_TAKA)
  }

  function Subtract(a: int, b: int): MoneyResult { FromPaisa(a - b) }

  function Add(a: int, b: int): MoneyResult { FromPaisa(a + b) }

  // ---------------------------------------------------------------- what a string denotes

  /** The number a decimal numeral denotes, as an exact fraction of a taka. */
  ghost function DecimalValue(s: string): real
    requires IsAmount(s)
  {
    var dot := IndexOf(s, '.');
    if dot == |s| then DigitsValue(s) as real
    else DigitsValue(s[..dot]) as real + DigitsValue(s[dot + 1..]) as real / Pow10(|s| - dot - 1) as real
  }

  lemma PaddedDigits(frac: string)
    requires AllDigits(frac) && 1 <= |frac| <= 2
    ensures AllDigits(Padded(frac))
    ensures DigitsValue(Padded(frac)) == if |frac| == 2 then DigitsValue(frac) else 10 * DigitsValue(frac)
  {
  }

  /** Padding with zeros scales the fraction to hundredths. */
  lemma PaddedValue(frac: string)
    requires AllDigits(frac) && 1 <= |frac| <= 2
    ensures AllDigits(Padded(frac))
    ensures DigitsValue(Padded(frac)) as real == 100.0 * (DigitsValue(frac) as real / Pow10(|frac|) as real)
  {
    hide DigitsValue, Padded;
    PaddedDigits(frac);
    assert Pow10(1) == 10 && Pow10(2) == 100;
  }

  lemma PaisaIsExact(s: string)
    requires IsAmount(s)
    ensures PaisaOf(s) as real == 100.0 * DecimalValue(s)
  {
    var dot := IndexOf(s, '.');
    if dot == |s| {
      assert s[..dot] == s;
      assert Padded("") == "00";
      assert DigitsValue("00"[..1][..0]) == 0;
      assert "00"[..1][0] == '0';
      assert DigitsValue("00") == 0;
    } else {
      PaddedValue(s[dot + 1..]);
    }
  }

  /** Acceptance, exactly: the cleaned string is a decimal numeral whose value is in range; and no rounding happens. */
  lemma ParseIsExact(input: string)
    ensures var cleaned := Clean(input);
      FromDecimalString(input).MoneyOk? <==>
        Trim(AsciiDigits(input)) != "" && IsAmount(cleaned) && 100.0 * DecimalValue(cleaned) <= 99_999_999_999_999.0
    ensures FromDecimalString(input).MoneyOk? ==>
      && 0 <= FromDecimalString(input).paisa <= 99_999_999_999_999
      && FromDecimalString(input).paisa as real == 100.0 * DecimalValue(Clean(input))
  {
    hide Clean, IsAmount, PaisaOf, DecimalValue, Trim, AsciiDigits;
    var cleaned := Clean(input);
    if IsAmount(cleaned) {
      PaisaIsExact(cleaned);
      var p := PaisaOf(cleaned);
      assert p as real <= MAX_ABS_PAISA as real <==> p <= MAX_ABS_PAISA;
    }
  }

  // ---------------------------------------------------------------- round trips

  lemma {:induction false} SqueezeKeeps(s: string)
    requires Plain(s) && ',' !in s
    ensures Squeeze(s) == s
    decreases |s|
  {
    if s != "" {
      SqueezeKeeps(s[1..]);
    }
  }

  lemma PlainKeepsUnits(s: string)
    requires Plain(s)
    ensures StripPrefix(s) == s && StripSuffix(s) == s
  {
    hide TrimLeft, TrimRight;
    NoUnit(s, "tk");
    NoUnit(s, "bdt");
  }

  lemma NoUnit(s: string, unit: string)
    requires Plain(s) && unit != "" && forall i :: 0 <= i < |unit| ==> 'a' <= unit[i] <= 'z'
    ensures !StartsWith(s, unit) && !EndsWith(s, unit)
  {
    if |unit| <= |s| {
      assert MapSeq(Lower, s[..|unit|])[0] == Lower(s[0]);
      assert MapSeq(Lower, s[|s| - |unit|..])[0] == Lower(s[|s| - |unit|]);
    }
  }

  lemma CleanKeeps(s: string)
    requires Plain(s) && s != ""
    ensures Clean(s) == Squeeze(s) && Trim(AsciiDigits(s)) != ""
    ensures ',' !in s ==> Clean(s) == s
  {
    hide StripPrefix, StripSuffix, Squeeze, AsciiDigits, Trim;
    PlainIsClean(s);
    PlainKeepsUnits(s);
    if ',' !in s {
      SqueezeKeeps(s);
    }
  }

  lemma PrintedParts(p: nat)
    ensures var s := ToDecimalString(p);
      var whole := Numeral(p / PAISA_PER_TAKA);
      && s == whole + "." + TwoDigits(p % PAISA_PER_TAKA)
      && Plain(s) && ',' !in s && IndexOf(s, '.') == |whole| && |s| == |whole| + 3
      && s[..|whole|] == whole && s[|whole| + 1..] == TwoDigits(p % PAISA_PER_TAKA)
  {
    var s := ToDecimalString(p);
    var whole := Numeral(p / PAISA_PER_TAKA);
    assert s == whole + "." + TwoDigits(p % PAISA_PER_TAKA);
    assert s[|whole|] == '.';
    assert forall k :: 0 <= k < |whole| ==> s[k] == whole[k];
    IndexIs(s, '.', |whole|);
  }

  lemma {:induction false} IndexIs(s: string, c: char, i: nat)
    requires i < |s| && s[i] == c && forall k :: 0 <= k < i ==> s[k] != c
    ensures IndexOf(s, c) == i
    decreases i
  {
  }

  /** The amount of a numeral in its canonical shape. */
  lemma PaisaOfParts(whole: string, frac: string)
    requires whole != "" && AllDigits(whole) && |frac| == 2 && AllDigits(frac)
    ensures var s := whole + "." + frac;
      IsAmount(s) && PaisaOf(s) == DigitsValue(whole) * PAISA_PER_TAKA + DigitsValue(frac)
  {
    hide DigitsValue;
    var s := whole + "." + frac;
    assert s[|whole|] == '.';
    IndexIs(s, '.', |whole|);
    assert s[..|whole|] == whole && s[|whole| + 1..] == frac;
    assert Padded(frac) == frac;
  }

  /** Printing and reading back gives the same amount exactly when it is not negative. */
  lemma ParsePrintIff(p: int)
    requires Abs(p) <= MAX_ABS_PAISA
    ensures FromDecimalString(ToDecimalString(p)) == MoneyOk(p) <==> p >= 0
  {
    if p >= 0 {
      PrintedReadsBack(p);
    } else {
      assert FromDecimalString(ToDecimalString(p)).MoneyOk? ==> FromDecimalString(ToDecimalString(p)).paisa >= 0 by {
        ParseIsExact(ToDecimalString(p));
      }
    }
  }

  lemma PrintedReadsBack(p: nat)
    requires p <= MAX_ABS_PAISA
    ensures FromDecimalString(ToDecimalString(p)) == MoneyOk(p)
  {
    hide Clean, Trim, AsciiDigits, Numeral, TwoDigits, IsAmount, PaisaOf, DigitsValue;
    var s := ToDecimalString(p);
    PrintedParts(p);
    CleanKeeps(s);
    NumeralReadsBack(p / PAISA_PER_TAKA);
    TwoDigitsReadBack(p % PAISA_PER_TAKA);
    PaisaOfParts(Numeral(p / PAISA_PER_TAKA), TwoDigits(p % PAISA_PER_TAKA));
  }

  /** The canonical form: no leading zero, a point, two digits. */
  predicate Canonical(s: string) {
    |s| >= 4 && s[|s| - 3] == '.' && NoLeadingZero(s[..|s| - 3]) && AllDigits(s[|s| - 2..])
  }

  /** Reading a canonical amount and printing it gives the same string. */
  lemma PrintParse(s: string)
    requires Canonical(s) && FromDecimalString(s).MoneyOk?
    ensures ToDecimalString(FromDecimalString(s).paisa) == s
  {
    hide FromDecimalString, Numeral, TwoDigits, DigitsValue;
    var whole, frac := s[..|s| - 3], s[|s| - 2..];
    assert s == whole + "." + frac;
    CanonicalPaisa(whole, frac);
    ValueWritesBack(whole);
    TwoDigitsWriteBack(frac);
  }

  lemma CanonicalPaisa(whole: string, frac: string)
    requires whole != "" && AllDigits(whole) && |frac| == 2 && AllDigits(frac)
    ensures FromDecimalString(whole + "." + frac)
      == FromPaisa(DigitsValue(whole) * PAISA_PER_TAKA + DigitsValue(frac))
  {
    hide Clean, Trim, AsciiDigits, IsAmount, PaisaOf, DigitsValue;
    var s := whole + "." + frac;
    assert Plain(s) && ',' !in s;
    CleanKeeps(s);
    PaisaOfParts(whole, frac);
  }

  /** Whatever was accepted, its printed form is canonical and denotes the same amount. */
  lemma PrintNormalises(input: string)
    requires FromDecimalString(input).MoneyOk?
    ensures var s := ToDecimalString(FromDecimalString(input).paisa);
      Canonical(s) && FromDecimalString(s) == FromDecimalString(input)
  {
    hide Clean, Numeral, TwoDigits;
    ParseIsExact(input);
    var p := FromDecimalString(input).paisa;
    PrintedReadsBack(p);
    PrintedParts(p);
    NumeralReadsBack(p / PAISA_PER_TAKA);
  }

  /** The difference of two parsed amounts is always a valid amount; their sum may not be. */
  lemma DifferenceStaysInRange(a: string, b: string)
    requires FromDecimalString(a).MoneyOk? && FromDecimalString(b).MoneyOk?
    ensures var x, y := FromDecimalString(a).paisa, FromDecimalString(b).paisa;
      Subtract(x, y) == MoneyOk(x - y) && (Add(x, y) == MoneyOk(x + y) <==> x + y <= MAX_ABS_PAISA)
  {
    ParseIsExact(a);
    ParseIsExact(b);
  }

  lemma {:induction false} SqueezeJoins(a: string, b: string)
    ensures Squeeze(a + b) == Squeeze(a) + Squeeze(b)
    decreases |a|
  {
    if a == "" {
      assert a + b == b;
    } else {
      assert (a + b)[1..] == a[1..] + b;
      SqueezeJoins(a[1..], b);
    }
  }

  lemma SqueezeComma(a: string, b: string)
    ensures Squeeze(a + "," + b) == Squeeze(a + b)
  {
    SqueezeJoins(a + ",", b);
    SqueezeJoins(a, ",");
    SqueezeJoins(a, b);
    assert Squeeze(",") == Squeeze(""[..0]) by {
      assert ","[1..] == "";
    }
  }

  /** A decimal comma is not recognised: it is dropped like a thousands separator. */
  lemma CommaIsDropped(a: string, b: string)
    requires a != "" && AllDigits(a) && AllDigits(b)
    ensures FromDecimalString(a + "," + b) == FromDecimalString(a + b)
  {
    hide Clean, Trim, AsciiDigits, IsAmount, PaisaOf, Squeeze, DigitsValue;
    var s, t := a + "," + b, a + b;
    assert Plain(s) && Plain(t);
    CleanKeeps(s);
    CleanKeeps(t);
    SqueezeComma(a, b);
  }

  lemma WholePaisa(whole: string)
    requires whole != "" && AllDigits(whole)
    ensures IsAmount(whole) && PaisaOf(whole) == DigitsValue(whole) * PAISA_PER_TAKA
  {
    var dot := IndexOf(whole, '.');
    assert dot == |whole| && whole[..dot] == whole;
    assert Padded("") == "00" && "00"[..1] == "0" && "0"[..0] == "";
    assert DigitsValue("00") == 0;
  }

  lemma PointPaisa(whole: string, frac: string)
    requires whole != "" && AllDigits(whole) && AllDigits(frac) && 1 <= |frac| <= 2
    ensures var s := whole + "." + frac;
      IsAmount(s) && PaisaOf(s) == DigitsValue(whole) * PAISA_PER_TAKA + DigitsValue(Padded(frac))
  {
    hide DigitsValue;
    var s := whole + "." + frac;
    assert s[|whole|] == '.';
    IndexIs(s, '.', |whole|);
    assert s[..|whole|] == whole && s[|whole| + 1..] == frac;
  }

  lemma DigitsSnoc(s: string, c: char)
    requires AllDigits(s) && IsDigit(c)
    ensures AllDigits(s + [c]) && DigitsValue(s + [c]) == 10 * DigitsValue(s) + DigitValue(c)
  {
    assert (s + [c])[..|s|] == s;
  }

  /** Without the point the same digits denote ten times or a hundred times as much. */
  lemma JoinedDigits(a: string, b: string)
    requires AllDigits(a) && AllDigits(b) && 1 <= |b| <= 2
    ensures var p := DigitsValue(a) * PAISA_PER_TAKA + DigitsValue(Padded(b));
      AllDigits(a + b) && DigitsValue(a + b) * PAISA_PER_TAKA == if |b| == 1 then 10 * p else 100 * p
  {
    hide DigitsValue, DigitValue, Padded;
    var c := b[0];
    assert DigitsValue("") == 0 by { EmptyIsZero(); }
    DigitsSnoc("", c);
    DigitsSnoc(a, c);
    assert "" + [c] == [c];
    if |b| == 1 {
      assert b == [c];
      assert Padded(b) == [c] + ['0'] by { PaddedIs(b); }
      ZeroDigit();
      DigitsSnoc([c], '0');
    } else {
      assert b == [c] + [b[1]] && a + b == a + [c] + [b[1]];
      assert Padded(b) == b by { PaddedIs(b); }
      DigitsSnoc([c], b[1]);
      DigitsSnoc(a + [c], b[1]);
    }
  }

  lemma EmptyIsZero()
    ensures DigitsValue("") == 0
  {
  }

  lemma ZeroDigit()
    ensures IsDigit('0') && DigitValue('0') == 0
  {
  }

  lemma PaddedIs(b: string)
    requires 1 <= |b| <= 2
    ensures Padded(b) == if |b| == 1 then b + ['0'] else b
  {
  }

  /** A decimal comma is read as a decimal point exactly when the amount is zero, or too large to be accepted. */
  lemma CommaIsPointIff(a: string, b: string)
    requires a != "" && AllDigits(a) && AllDigits(b) && 1 <= |b| <= 2
    ensures var p := FromDecimalString(a + "." + b);
      && (p.MoneyOk? || p.OutOfRange?)
      && (FromDecimalString(a + "," + b) == p <==> p == MoneyOk(0) || p.OutOfRange?)
  {
    hide Clean, Trim, AsciiDigits, IsAmount, PaisaOf, Squeeze, DigitsValue, Padded;
    CommaIsDropped(a, b);
    var joined, pointed := a + b, a + "." + b;
    assert Plain(joined) && Plain(pointed) && ',' !in joined && ',' !in pointed;
    CleanKeeps(joined);
    CleanKeeps(pointed);
    WholePaisa(joined);
    PointPaisa(a, b);
    JoinedDigits(a, b);
  }

  // ---------------------------------------------------------------- units

  predicate IsLetter(c: char, lower: char) {
    'a' <= lower <= 'z' && (c == lower || c as int == lower as int - 32)
  }

  /** Tk or BDT in any case, or the taka sign. */
  predicate IsUnit(u: string) {
    || (|u| == 2 && IsLetter(u[0], 't') && IsLetter(u[1], 'k'))
    || (|u| == 3 && IsLetter(u[0], 'b') && IsLetter(u[1], 'd') && IsLetter(u[2], 't'))
    || u == "\U{09F3}"
  }

  /** Digits, points and commas that begin and end with a digit. */
  predicate IsNumeralText(s: string) {
    s != "" && Plain(s) && IsDigit(s[0]) && IsDigit(s[|s| - 1])
  }

  predicate Begins(t: string, a: char, b: char) {
    |t| >= 2 && Lower(t[0]) == a && Lower(t[1]) == b
  }

  predicate Ends(t: string, a: char, b: char) {
    |t| >= 2 && Lower(t[|t| - 2]) == a && Lower(t[|t| - 1]) == b
  }

  lemma FirstTwo(t: string)
    requires |t| >= 2
    ensures MapSeq(Lower, t[..2]) == [Lower(t[0]), Lower(t[1])]
  {
    hide Lower;
  }

  lemma FirstThree(t: string)
    requires |t| >= 3
    ensures MapSeq(Lower, t[..3]) == [Lower(t[0]), Lower(t[1]), Lower(t[2])]
  {
    hide Lower;
  }

  lemma LastTwo(t: string)
    requires |t| >= 2
    ensures MapSeq(Lower, t[|t| - 2..]) == [Lower(t[|t| - 2]), Lower(t[|t| - 1])]
  {
    hide Lower;
  }

  lemma LastThree(t: string)
    requires |t| >= 3
    ensures MapSeq(Lower, t[|t| - 3..]) == [Lower(t[|t| - 3]), Lower(t[|t| - 2]), Lower(t[|t| - 1])]
  {
    hide Lower;
  }

  lemma TwoLetters(a: char, b: char)
    ensures [a, b] == "tk" <==> a == 't' && b == 'k'
  {
  }

  lemma ThreeLetters(a: char, b: char, c: char)
    ensures [a, b, c] == "bdt" <==> a == 'b' && b == 'd' && c == 't'
  {
  }

  lemma StartsAre(t: string)
    ensures StartsWith(t, "tk") <==> Begins(t, 't', 'k')
    ensures StartsWith(t, "bdt") <==> Begins(t, 'b', 'd') && |t| >= 3 && Lower(t[2]) == 't'
  {
    hide Lower, MapSeq;
    if |t| >= 2 {
      FirstTwo(t);
      TwoLetters(Lower(t[0]), Lower(t[1]));
    }
    if |t| >= 3 {
      FirstThree(t);
      ThreeLetters(Lower(t[0]), Lower(t[1]), Lower(t[2]));
    }
  }

  lemma EndsInTk(t: string)
    ensures EndsWith(t, "tk") <==> Ends(t, 't', 'k')
  {
    hide Lower, MapSeq;
    if |t| >= 2 {
      LastTwo(t);
      TwoLetters(Lower(t[|t| - 2]), Lower(t[|t| - 1]));
    }
  }

  lemma EndsInBdt(t: string)
    ensures EndsWith(t, "bdt") <==> Ends(t, 'd', 't') && |t| >= 3 && Lower(t[|t| - 3]) == 'b'
  {
    hide Lower, MapSeq;
    if |t| >= 3 {
      LastThree(t);
      ThreeLetters(Lower(t[|t| - 3]), Lower(t[|t| - 2]), Lower(t[|t| - 1]));
    }
  }

  /** Where the letters of a unit in front of a text stand. */
  lemma FrontIs(u: string, rest: string)
    requires IsUnit(u) && rest != ""
    ensures var t := u + rest;
      && |t| > |u| && t[|u|..] == rest && t[|u|] == rest[0] && t[0] == u[0]
      && (|u| > 1 ==> t[1] == u[1]) && (|u| > 2 ==> t[2] == u[2])
  {
  }

  /** Which unit a text begins with decides what is cut off. */
  lemma FrontUnitIs(u: string, rest: string)
    requires IsUnit(u) && rest != "" && rest[0] != '.'
    ensures StripPrefix(u + rest) == TrimLeft(rest)
  {
    hide StartsWith, TrimLeft;
    FrontIs(u, rest);
    StartsAre(u + rest);
  }

  lemma PrefixIsStripped(u: string, gap: string, s: string)
    requires IsUnit(u) && gap in {"", " "} && IsNumeralText(s)
    ensures StripPrefix(u + gap + s) == s
  {
    hide StripPrefix, TrimLeft, Plain, IsUnit;
    var rest := gap + s;
    assert u + gap + s == u + rest;
    assert rest != "" && rest[0] != '.';
    FrontUnitIs(u, rest);
    TrimsGapLeft(gap, s);
  }

  lemma TrimsGapLeft(gap: string, s: string)
    requires gap in {"", " "} && IsNumeralText(s)
    ensures TrimLeft(gap + s) == s
  {
    assert "" + s == s;
    if gap == " " {
      assert (gap + s)[1..] == s;
    }
  }

  lemma TrimsGapRight(gap: string, s: string)
    requires gap in {"", " "} && IsNumeralText(s)
    ensures TrimRight(s + gap) == s
  {
    assert s + "" == s;
    if gap == " " {
      assert (s + gap)[..|s|] == s;
    }
  }

  lemma SuffixIsStripped(u: string, gap: string, s: string)
    requires IsUnit(u) && gap in {"", " "} && IsNumeralText(s)
    ensures StripPrefix(s + gap + u) == s + gap + u && StripSuffix(s + gap + u) == s
  {
    hide StartsWith, EndsWith, TrimRight;
    var t := s + gap + u;
    var n := |t| - |u|;
    assert t[..n] == s + gap;
    assert t[0] == s[0] && t[|t| - 1] == u[|u| - 1] && (|u| > 1 ==> t[|t| - 2] == u[|u| - 2]);
    assert |u| > 2 ==> t[|t| - 3] == u[0];
    TrimsGapRight(gap, s);
    StartsAre(t);
    EndsInTk(t);
    EndsInBdt(t);
  }

  /** Nothing to trim and no Bengali digit. */
  predicate IsOuter(t: string) {
    && t != "" && !IsSpace(t[0]) && !IsSpace(t[|t| - 1])
    && forall i :: 0 <= i < |t| ==> !(BENGALI_ZERO <= t[i] <= BENGALI_NINE)
  }

  lemma OuterStays(t: string)
    requires IsOuter(t)
    ensures Trim(AsciiDigits(t)) == t
  {
    assert AsciiDigits(t) == t;
  }

  lemma UnitIsOuter(u: string)
    requires IsUnit(u)
    ensures IsOuter(u)
  {
  }

  lemma NumeralIsOuter(s: string)
    requires IsNumeralText(s)
    ensures IsOuter(s)
  {
  }

  lemma OuterJoins(a: string, gap: string, b: string)
    requires IsOuter(a) && IsOuter(b) && gap in {"", " "}
    ensures IsOuter(a + gap + b)
  {
    hide IsSpace;
    var t := a + gap + b;
    forall i | 0 <= i < |t| ensures !(BENGALI_ZERO <= t[i] <= BENGALI_NINE) {
      assert t[i] == if i < |a| then a[i] else if i < |a| + |gap| then ' ' else b[i - |a| - |gap|];
    }
  }

  /** A unit before or after an amount, with or without a space between, does not change what it denotes. */
  lemma UnitIsDropped(u: string, gap: string, s: string)
    requires IsUnit(u) && gap in {"", " "} && IsNumeralText(s)
    ensures FromDecimalString(u + gap + s) == FromDecimalString(s)
    ensures FromDecimalString(s + gap + u) == FromDecimalString(s)
  {
    hide StripPrefix, StripSuffix, Squeeze, Trim, AsciiDigits, IsAmount, PaisaOf, IsSpace;
    UnitIsOuter(u);
    NumeralIsOuter(s);
    OuterJoins(u, gap, s);
    OuterJoins(s, gap, u);
    OuterStays(u + gap + s);
    OuterStays(s + gap + u);
    PrefixIsStripped(u, gap, s);
    SuffixIsStripped(u, gap, s);
    PlainKeepsUnits(s);
    PlainIsClean(s);
  }
}
