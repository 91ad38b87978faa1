/** Provider timestamps: format strings, matching, and the Dhaka calendar (packages/shared/src/time.ts). */
module TimeParser {
  import opened Prelude
  import opened Text
  import opened Calendar

  // ---------------------------------------------------------------- formatToRegex

  datatype Token = YearFour | YearTwo | MonthTok | DayTok | HourTok | MinuteTok | SecondTok

  /** A format is literal characters and digit groups; each matches a fixed number of characters. */
  datatype Piece = Lit(c: char) | Tok(token: Token)

  function TokenText(t: Token): string {
    match t
    case YearFour => "yyyy"
    case YearTwo => "yy"
    case MonthTok => "MM"
    case DayTok => "dd"
    case HourTok => "HH"
    case MinuteTok => "mm"
    case SecondTok => "ss"
  }

  function Width(t: Token): nat {
    if t.YearFour? then 4 else 2
  }

  /** The alternation tries the tokens in this order at every position. */
  const TOKENS: seq<Token> := [YearFour, YearTwo, MonthTok, DayTok, HourTok, MinuteTok, SecondTok]

  function TokenAt(s: string): (r: Option<Token>)
    ensures r.Some? ==> TokenText(r.value) <= s
  {
    if "yyyy" <= s then Some(YearFour)
    else if "yy" <= s then Some(YearTwo)
    else if "MM" <= s then Some(MonthTok)
    else if "dd" <= s then Some(DayTok)
    else if "HH" <= s then Some(HourTok)
    else if "mm" <= s then Some(MinuteTok)
    else if "ss" <= s then Some(SecondTok)
    else None
  }

  function Pieces(format: string): seq<Piece>
    decreases |format|
  {
    if format == "" then []
    else
      match TokenAt(format)
      case Some(t) => [Tok(t)] + Pieces(format[|TokenText(t)|..])
      case None => [Lit(format[0])] + Pieces(format[1..])
  }

  lemma NoPieces()
    ensures Pieces("") == []
  {
  }

  lemma PiecesStep(format: string)
    requires format != ""
    ensures match TokenAt(format)
      case Some(t) => |TokenText(t)| <= |format| && Pieces(format) == [Tok(t)] + Pieces(format[|TokenText(t)|..])
      case None => Pieces(format) == [Lit(format[0])] + Pieces(format[1..])
  {
  }

  /** The scan over the format: literals are copied, tokens become digit groups. */
  method FormatToPieces(format: string) returns (pieces: seq<Piece>)
    ensures pieces == Pieces(format)
  {
    hide TokenAt, Pieces;
    pieces := [];
    var i := 0;
    assert Pieces("") == [] by { NoPieces(); }
    assert format[0..] == format;
    while i < |format|
      invariant 0 <= i <= |format|
      invariant pieces + Pieces(format[i..]) == Pieces(format)
      decreases |format| - i
    {
      PiecesStep(format[i..]);
      var token := TokenAt(format[i..]);
      if token.Some? {
        var n := |TokenText(token.value)|;
        assert format[i..][n..] == format[i + n..];
        pieces := pieces + [Tok(token.value)];
        i := i + n;
      } else {
        assert format[i..][1..] == format[i + 1..];
        pieces := pieces + [Lit(format[i])];
        i := i + 1;
      }
    }
    assert format[i..] == "";
  }

  function CountToken(ps: seq<Piece>, t: Token): nat {
    if ps == [] then 0 else CountToken(ps[1..], t) + if ps[0] == Tok(t) then 1 else 0
  }

  predicate RepeatsToken(ps: seq<Piece>) {
    exists t :: t in TOKENS && CountToken(ps, t) > 1
  }

  /** No token stands at two places. */
  predicate NoTokenTwice(ps: seq<Piece>) {
    forall i, j :: 0 <= i < j < |ps| && ps[i].Tok? ==> ps[i] != ps[j]
  }

  lemma {:induction false} CountTokenIs(ps: seq<Piece>, t: Token)
    ensures CountToken(ps, t) >= 1 <==> Tok(t) in ps
    ensures CountToken(ps, t) > 1 <==> exists i, j :: 0 <= i < j < |ps| && ps[i] == ps[j] == Tok(t)
    decreases |ps|
  {
    if ps != [] {
      var rest := ps[1..];
      CountTokenIs(rest, t);
      assert ps == [ps[0]] + rest;
      if i, j :| 0 <= i < j < |rest| && rest[i] == rest[j] == Tok(t) {
        assert ps[i + 1] == ps[j + 1] == Tok(t);
      }
      if ps[0] == Tok(t) && Tok(t) in rest {
        var j :| 0 <= j < |rest| && rest[j] == Tok(t);
        assert ps[0] == ps[j + 1] == Tok(t);
      }
      if i, j :| 0 <= i < j < |ps| && ps[i] == ps[j] == Tok(t) {
        assert ps[j] == rest[j - 1];
        if i > 0 {
          assert ps[i] == rest[i - 1];
        }
      }
    }
  }

  lemma RepeatsIff(ps: seq<Piece>)
    ensures RepeatsToken(ps) <==> !NoTokenTwice(ps)
  {
    hide CountToken;
    forall t: Token ensures t in TOKENS {
      EveryToken(t);
    }
    if t :| t in TOKENS && CountToken(ps, t) > 1 {
      CountTokenIs(ps, t);
    }
    if i, j :| 0 <= i < j < |ps| && ps[i].Tok? && ps[i] == ps[j] {
      CountTokenIs(ps, ps[i].token);
    }
  }

  lemma EveryToken(t: Token)
    ensures t in TOKENS
  {
  }

  predicate HasTokens(ps: seq<Piece>) {
    exists k :: 0 <= k < |ps| && ps[k].Tok?
  }

  // ---------------------------------------------------------------- matching

  type Groups = map<Token, nat>

  /** The whole input against the whole pattern; the groups as numbers. */
  function Match(ps: seq<Piece>, s: string): Option<Groups>
    decreases |ps|
  {
    if ps == [] then (if s == "" then Some(map[]) else None)
    else
      match ps[0]
      case Lit(c) => if s != "" && s[0] == c then Match(ps[1..], s[1..]) else None
      case Tok(t) =>
        if |s| < Width(t) || !AllDigits(s[..Width(t)]) then None
        else
          match Match(ps[1..], s[Width(t)..])
          case None => None
          case Some(g) => Some(g[t := DigitsValue(s[..Width(t)])])
  }

  const TWO_DIGIT_YEAR_PIVOT := 70

  function PivotYear(yy: nat): int {
    if yy < TWO_DIGIT_YEAR_PIVOT then 2000 + yy else 1900 + yy
  }

  function Group(g: Groups, t: Token): nat {
    if t in g then g[t] else 0
  }

  function FieldsOf(g: Groups): Fields {
    Fields(
      Civil(if YearFour in g then g[YearFour] else PivotYear(Group(g, YearTwo)), Group(g, MonthTok), Group(g, DayTok)),
      Clock(Group(g, HourTok), Group(g, MinuteTok), Group(g, SecondTok)))
  }

  /** The range checks, then the read-back check that rejects dates the calendar rolled over. */
  function Accept(f: Fields): Option<int> {
    var d, t := f.date, f.time;
    if d.month < 1 || d.month > 12 || d.day < 1 || d.day > 31 || t.hour > 23 || t.minute > 59 || t.second > 59 then None
    else
      var ms := InstantOf(f);
      if DhakaComponents(ms) == f then Some(ms) else None
  }

  datatype TimeResult = Instant(ms: int) | TimeParseError | SyntaxError

  /** One format: skip it, take its instant, or fail on a group named twice. */
  function TryFormat(input: string, format: string): Option<TimeResult> {
    var ps := Pieces(format);
    if RepeatsToken(ps) then Some(SyntaxError)
    else if !HasTokens(ps) then None
    else
      match Match(ps, input)
      case None => None
      case Some(g) =>
        match Accept(FieldsOf(g))
        case None => None
        case Some(ms) => Some(Instant(ms))
  }

  function TryFormats(input: string, formats: seq<string>): TimeResult {
    if formats == [] then TimeParseError
    else
      match TryFormat(input, formats[0])
      case Some(r) => r
      case None => TryFormats(input, formats[1..])
  }

  function Parse(raw: string, formats: seq<string>, tz: string): TimeResult {
    if tz != "Asia/Dhaka" then TimeParseError else TryFormats(Trim(AsciiDigits(raw)), formats)
  }

  /** The loop over the formats. */
  method ParseProviderTimestamp(raw: string, formats: seq<string>, tz: string) returns (r: TimeResult)
    ensures r == Parse(raw, formats, tz)
  {
    hide Pieces, Match, Accept, RepeatsToken, HasTokens, Trim, AsciiDigits, FieldsOf;
    if tz != "Asia/Dhaka" {
      return TimeParseError;
    }
    var ascii := ToAsciiDigits(raw);
    var input := Trim(ascii);
    var i := 0;
    assert formats[0..] == formats;
    while i < |formats|
      invariant 0 <= i <= |formats|
      invariant TryFormats(input, formats[i..]) == TryFormats(input, formats)
    {
      assert formats[i..][0] == formats[i] && formats[i..][1..] == formats[i + 1..];
      var pieces := FormatToPieces(formats[i]);
      if RepeatsToken(pieces) {
        return SyntaxError;
      }
      if HasTokens(pieces) {
        var groups := Match(pieces, input);
        if groups.Some? {
          var ms := Accept(FieldsOf(groups.value));
          if ms.Some? {
            return Instant(ms.value);
          }
        }
      }
      i := i + 1;
    }
    return TimeParseError;
  }

  // ---------------------------------------------------------------- what acceptance means

  lemma FieldsAreNatural(g: Groups)
    ensures var f := FieldsOf(g);
      && f.date.year >= 0 && f.date.month >= 0 && f.date.day >= 0
      && f.time.hour >= 0 && f.time.minute >= 0 && f.time.second >= 0
  {
  }

  /**
   * A matched format is accepted exactly when its fields name a real date and time, from the year 100 on, and
   * the instant returned reads back as the same Dhaka fields.
   */
  lemma AcceptIff(g: Groups)
    ensures var f := FieldsOf(g);
      && (Accept(f).Some? <==> IsDate(f.date) && IsTime(f.time) && f.date.year >= 100)
      && (Accept(f).Some? ==> DhakaComponents(Accept(f).value) == f)
  {
    hide FieldsOf, DhakaComponents, InstantOf;
    var f := FieldsOf(g);
    FieldsAreNatural(g);
    if 1 <= f.date.month <= 12 && 1 <= f.date.day && IsTime(f.time) {
      FieldsReadBackIff(f);
    }
  }

  /** A two-digit year is always from 1970 to 2069, so only four-digit years can fall below the limit. */
  lemma TwoDigitYearsAreRecent(yy: nat)
    requires yy <= 99
    ensures 1970 <= PivotYear(yy) <= 2069 && PivotYear(yy) % 100 == yy
  {
  }

  /** The instant returned is that of the first format that does not pass the input over. */
  lemma {:induction false} FirstFormatWins(input: string, formats: seq<string>, k: nat)
    requires k < |formats| && TryFormat(input, formats[k]).Some?
    requires forall j :: 0 <= j < k ==> TryFormat(input, formats[j]).None?
    ensures TryFormats(input, formats) == TryFormat(input, formats[k]).value
    decreases k
  {
    hide TryFormat;
    if k > 0 {
      FirstFormatWins(input, formats[1..], k - 1);
    }
  }

  /** Distinct fields give distinct instants: a timestamp is never read as another one's instant. */
  lemma InstantsAreDistinct(g: Groups, h: Groups)
    requires Accept(FieldsOf(g)).Some? && Accept(FieldsOf(h)).Some? && FieldsOf(g) != FieldsOf(h)
    ensures Accept(FieldsOf(g)) != Accept(FieldsOf(h))
  {
    hide FieldsOf, DhakaComponents, InstantOf;
    AcceptIff(g);
    AcceptIff(h);
  }

  // ---------------------------------------------------------------- writing and reading back

  /** The format string a sequence of pieces is written as. */
  function FormatText(ps: seq<Piece>): string {
    if ps == [] then ""
    else
      match ps[0]
      case Lit(c) => [c] + FormatText(ps[1..])
      case Tok(t) => TokenText(t) + FormatText(ps[1..])
  }

  predicate IsTokenLetter(c: char) {
    c == 'y' || c == 'M' || c == 'd' || c == 'H' || c == 'm' || c == 's'
  }

  predicate IsYear(p: Piece) { p == Tok(YearTwo) || p == Tok(YearFour) }

  /** Literals that start no token, and no year right behind a two-digit one, which would be swallowed. */
  predicate Unambiguous(ps: seq<Piece>) {
    forall k :: 0 <= k < |ps| ==>
      && (ps[k].Lit? ==> !IsTokenLetter(ps[k].c))
      && (ps[k] == Tok(YearTwo) && k + 1 < |ps| ==> !IsYear(ps[k + 1]))
  }

  /** Such a format is read as the pieces it was written from. */
  lemma {:induction false} FormatReadsBack(ps: seq<Piece>)
    requires Unambiguous(ps)
    ensures Pieces(FormatText(ps)) == ps
    decreases |ps|
  {
    hide TokenAt, Pieces;
    if ps == [] {
      NoPieces();
    } else {
      var s := FormatText(ps);
      FormatReadsBack(ps[1..]);
      PiecesStep(s);
      match ps[0]
      case Lit(c) =>
        assert s[0] == c && s[1..] == FormatText(ps[1..]);
        NoTokenAt(c, s);
      case Tok(t) =>
        var text := TokenText(t);
        assert s[..|text|] == text && s[|text|..] == FormatText(ps[1..]);
        if t.YearTwo? {
          StartsOf(ps[1..]);
        }
        TokenIsAt(t, s, s[|text|..]);
    }
  }

  lemma NoTokenAt(c: char, s: string)
    requires s != "" && s[0] == c && !IsTokenLetter(c)
    ensures TokenAt(s).None?
  {
  }

  /** Only a year is written with a `y` first. */
  lemma StartsOf(ps: seq<Piece>)
    requires Unambiguous(ps) && (ps != [] ==> !IsYear(ps[0]))
    ensures FormatText(ps) == "" || FormatText(ps)[0] != 'y'
  {
    if ps != [] && ps[0].Tok? {
      assert TokenText(ps[0].token)[0] != 'y';
    }
  }

  lemma TokenIsAt(t: Token, s: string, rest: string)
    requires s == TokenText(t) + rest && (t.YearTwo? && rest != "" ==> rest[0] != 'y')
    ensures TokenAt(s) == Some(t)
  {
    assert s[0] == TokenText(t)[0];
    if t.YearTwo? && |s| >= 3 {
      assert s[2] == rest[0];
    }
  }

  function FourDigits(n: nat): (s: string)
    requires n <= 9999
    ensures |s| == 4 && AllDigits(s)
  {
    TwoDigits(n / 100) + TwoDigits(n % 100)
  }

  lemma FourDigitsReadBack(n: nat)
    requires n <= 9999
    ensures DigitsValue(FourDigits(n)) == n
    ensures n >= 1000 ==> FourDigits(n) == Numeral(n)
  {
    var s := FourDigits(n);
    var a, b := TwoDigits(n / 100), TwoDigits(n % 100);
    TwoDigitsReadBack(n / 100);
    TwoDigitsReadBack(n % 100);
    assert s[..3] == a + [b[0]] && s[..3][..2] == a;
    assert b[..1][..0] == "" && b[..1][0] == b[0];
    assert DigitsValue(b) == 10 * DigitValue(b[0]) + DigitValue(b[1]);
    assert DigitsValue(s[..3]) == 10 * DigitsValue(a) + DigitValue(b[0]);
    assert DigitsValue(s) == 10 * DigitsValue(s[..3]) + DigitValue(b[1]);
    if n >= 1000 {
      assert s[0] != '0';
      ValueWritesBack(s);
    }
  }

  function ValueOf(t: Token, f: Fields): int {
    match t
    case YearFour => f.date.year
    case YearTwo => f.date.year % 100
    case MonthTok => f.date.month
    case DayTok => f.date.day
    case HourTok => f.time.hour
    case MinuteTok => f.time.minute
    case SecondTok => f.time.second
  }

  /** Fields that fit their digit groups. */
  predicate Printable(f: Fields) {
    IsDate(f.date) && IsTime(f.time) && 100 <= f.date.year <= 9999
  }

  function PieceText(p: Piece, f: Fields): (s: string)
    requires Printable(f)
    ensures s != ""
  {
    match p
    case Lit(c) => [c]
    case Tok(t) => if t.YearFour? then FourDigits(f.date.year) else TwoDigits(ValueOf(t, f))
  }

  function Render(ps: seq<Piece>, f: Fields): string
    requires Printable(f)
  {
    if ps == [] then "" else PieceText(ps[0], f) + Render(ps[1..], f)
  }

  function GroupsOf(ps: seq<Piece>, f: Fields): Groups
    requires Printable(f)
  {
    if ps == [] then map[]
    else
      match ps[0]
      case Lit(_) => GroupsOf(ps[1..], f)
      case Tok(t) => GroupsOf(ps[1..], f)[t := ValueOf(t, f)]
  }

  lemma {:induction false} MatchReadsBack(ps: seq<Piece>, f: Fields)
    requires Printable(f)
    ensures Match(ps, Render(ps, f)) == Some(GroupsOf(ps, f))
    decreases |ps|
  {
    hide DigitsValue, TwoDigits, FourDigits;
    if ps != [] {
      var s, rest := Render(ps, f), Render(ps[1..], f);
      MatchReadsBack(ps[1..], f);
      match ps[0]
      case Lit(c) => assert s[0] == c && s[1..] == rest;
      case Tok(t) =>
        var digits := PieceText(ps[0], f);
        assert s[..Width(t)] == digits && s[Width(t)..] == rest;
        if t.YearFour? {
          FourDigitsReadBack(f.date.year);
        } else {
          TwoDigitsReadBack(ValueOf(t, f));
        }
    }
  }

  lemma {:induction false} GroupsHold(ps: seq<Piece>, f: Fields, t: Token)
    requires Printable(f)
    ensures t in GroupsOf(ps, f) <==> Tok(t) in ps
    ensures t in GroupsOf(ps, f) ==> GroupsOf(ps, f)[t] == ValueOf(t, f)
    decreases |ps|
  {
    if ps != [] {
      assert ps == [ps[0]] + ps[1..];
      GroupsHold(ps[1..], f, t);
    }
  }

  /**
   * The format can carry these fields: it names month and day, the year in four digits or (from 1970 to 2069) in
   * two, and every part of the time that is not zero. A format without a year stands for the year 2000.
   */
  predicate Expresses(ps: seq<Piece>, f: Fields) {
    && ExpressesYear(ps, f.date.year) && Tok(MonthTok) in ps && Tok(DayTok) in ps
    && (Tok(HourTok) in ps || f.time.hour == 0)
    && (Tok(MinuteTok) in ps || f.time.minute == 0)
    && (Tok(SecondTok) in ps || f.time.second == 0)
  }

  predicate ExpressesYear(ps: seq<Piece>, year: int) {
    || Tok(YearFour) in ps
    || (if Tok(YearTwo) in ps then 1970 <= year <= 2069 else year == 2000)
  }

  /** The fields read back are the fields written exactly when the format can carry them. */
  lemma FieldsSurviveIff(ps: seq<Piece>, f: Fields)
    requires Printable(f)
    ensures FieldsOf(GroupsOf(ps, f)) == f <==> Expresses(ps, f)
  {
    hide GroupsOf;
    GroupsHold(ps, f, YearFour);
    GroupsHold(ps, f, YearTwo);
    GroupsHold(ps, f, MonthTok);
    GroupsHold(ps, f, DayTok);
    GroupsHold(ps, f, HourTok);
    GroupsHold(ps, f, MinuteTok);
    GroupsHold(ps, f, SecondTok);
  }

  // ---------------------------------------------------------------- what the clean-up does to a rendering

  predicate NoBengaliDigit(s: string) {
    forall i :: 0 <= i < |s| ==> !(BENGALI_ZERO <= s[i] <= BENGALI_NINE)
  }

  /** Nothing for the clean-up to change: no Bengali digit, no white space at either end. */
  predicate CleanText(s: string) {
    NoBengaliDigit(s) && (s != "" ==> !IsSpace(s[0]) && !IsSpace(s[|s| - 1]))
  }

  lemma {:induction false} TrimShortens(s: string)
    ensures |TrimLeft(s)| <= |s| && |TrimRight(s)| <= |s|
    decreases |s|
  {
    if s != "" {
      TrimShortens(s[1..]);
      TrimShortens(s[..|s| - 1]);
    }
  }

  lemma TrimKeepsLengthIff(s: string)
    ensures |Trim(s)| <= |s|
    ensures |Trim(s)| == |s| <==> s == "" || (!IsSpace(s[0]) && !IsSpace(s[|s| - 1]))
    ensures |Trim(s)| == |s| ==> Trim(s) == s
  {
    hide IsSpace;
    TrimShortens(s);
    TrimShortens(TrimLeft(s));
    if s != "" {
      TrimShortens(s[1..]);
      if !IsSpace(s[0]) {
        TrimShortens(s[..|s| - 1]);
      }
    }
  }

  /** What matches a pattern has its length, and its characters outside the digit groups. */
  lemma {:induction false} MatchMeans(ps: seq<Piece>, s: string, f: Fields)
    requires Printable(f) && Match(ps, s).Some?
    ensures var r := Render(ps, f);
      |s| == |r| && forall k :: 0 <= k < |s| ==> s[k] == r[k] || (IsDigit(s[k]) && IsDigit(r[k]))
    decreases |ps|
  {
    hide DigitsValue, TwoDigits, FourDigits;
    if ps != [] {
      var n := |PieceText(ps[0], f)|;
      MatchMeans(ps[1..], s[n..], f);
      var r := Render(ps, f);
      forall k | 0 <= k < |s| ensures s[k] == r[k] || (IsDigit(s[k]) && IsDigit(r[k])) {
        if k >= n {
          assert s[k] == s[n..][k - n] && r[k] == Render(ps[1..], f)[k - n];
        } else if ps[0].Tok? {
          assert s[k] == s[..n][k] && r[k] == PieceText(ps[0], f)[k];
        }
      }
    }
  }

  /** A rendering that the clean-up changes no longer matches its own format. */
  lemma MatchNeedsCleanText(ps: seq<Piece>, f: Fields)
    requires Printable(f) && Match(ps, Trim(AsciiDigits(Render(ps, f)))).Some?
    ensures CleanText(Render(ps, f)) && Trim(AsciiDigits(Render(ps, f))) == Render(ps, f)
  {
    hide Render, Match, Trim, IsSpace;
    var r := Render(ps, f);
    var ascii := AsciiDigits(r);
    MatchMeans(ps, Trim(ascii), f);
    TrimKeepsLengthIff(ascii);
    forall k | 0 <= k < |r| ensures !(BENGALI_ZERO <= r[k] <= BENGALI_NINE) {
      assert Trim(ascii)[k] == ascii[k];
    }
    assert ascii == r;
  }

  lemma CleanTextStays(s: string)
    requires CleanText(s)
    ensures Trim(AsciiDigits(s)) == s
  {
    hide IsSpace, Trim;
    assert AsciiDigits(s) == s;
    TrimKeepsLengthIff(s);
  }

  /** The text of a piece is as clean as the characters of the format it came from. */
  lemma {:induction false} RenderCleanIff(format: string, f: Fields)
    requires Printable(f)
    ensures Alike(Render(Pieces(format), f), format)
    decreases |format|
  {
    hide TokenAt, Pieces, PieceText, Alike;
    if format == "" {
      NoPieces();
      NothingAlike();
    } else {
      PiecesStep(format);
      var head := FirstPiece(format);
      var n := |PieceSource(head)|;
      var ps, rest := Pieces(format), format[n..];
      assert ps[0] == head && ps[1..] == Pieces(rest);
      RenderCleanIff(rest, f);
      PieceCleanIff(head, f);
      assert Render(ps, f) == PieceText(head, f) + Render(Pieces(rest), f);
      assert format == PieceSource(head) + rest;
      AlikeJoins(PieceText(head, f), PieceSource(head), Render(Pieces(rest), f), rest);
    }
  }

  /** Two texts that the clean-up treats alike. */
  predicate Alike(r: string, s: string) {
    && (r == "" <==> s == "")
    && (NoBengaliDigit(r) <==> NoBengaliDigit(s))
    && (s != "" && r != "" ==>
          && (IsSpace(r[0]) <==> IsSpace(s[0]))
          && (IsSpace(r[|r| - 1]) <==> IsSpace(s[|s| - 1])))
  }

  lemma NothingAlike()
    ensures Alike("", "")
  {
  }

  lemma AlikeJoins(a: string, b: string, c: string, d: string)
    requires Alike(a, b) && Alike(c, d) && a != ""
    ensures Alike(a + c, b + d)
  {
    hide NoBengaliDigit, IsSpace;
    BengaliJoins(a, c);
    BengaliJoins(b, d);
    if c == "" {
      assert a + c == a && b + d == b;
    }
  }

  lemma BengaliJoins(a: string, b: string)
    ensures NoBengaliDigit(a + b) <==> NoBengaliDigit(a) && NoBengaliDigit(b)
  {
    if NoBengaliDigit(a + b) {
      assert forall i :: 0 <= i < |a| ==> (a + b)[i] == a[i];
      assert forall i :: 0 <= i < |b| ==> (a + b)[|a| + i] == b[i];
    }
  }

  function FirstPiece(format: string): (p: Piece)
    requires format != ""
    ensures PieceSource(p) <= format && PieceSource(p) != ""
  {
    match TokenAt(format)
    case Some(t) => Tok(t)
    case None => Lit(format[0])
  }

  function PieceSource(p: Piece): string {
    match p
    case Lit(c) => [c]
    case Tok(t) => TokenText(t)
  }

  lemma PieceCleanIff(p: Piece, f: Fields)
    requires Printable(f)
    ensures Alike(PieceText(p, f), PieceSource(p))
  {
    hide TwoDigits, FourDigits;
  }

  // ---------------------------------------------------------------- the round trip

  /**
   * Writing an instant in a format and parsing it with that format gives the instant back, exactly when the format
   * can carry the instant's fields, names no token twice, and has no white space at its ends or Bengali digits in it.
   */
  lemma ParseRendered(format: string, ms: int)
    requires ms % 1000 == 0 && Printable(DhakaComponents(ms))
    ensures var ps := Pieces(format);
      Parse(Render(ps, DhakaComponents(ms)), [format], "Asia/Dhaka") == Instant(ms)
      <==> CleanText(format) && NoTokenTwice(ps) && Expresses(ps, DhakaComponents(ms))
  {
    hide DhakaComponents, InstantOf, RepeatsToken, Pieces, Match, GroupsOf, Render, Trim, AsciiDigits, Accept, IsSpace;
    hide Printable, FieldsOf, NoBengaliDigit;
    var f := DhakaComponents(ms);
    var ps := Pieces(format);
    var r := Render(ps, f);
    var input := Trim(AsciiDigits(r));
    OnlyFormat(input, format);
    RenderCleanIff(format, f);
    RepeatsIff(ps);
    if CleanText(r) {
      CleanTextStays(r);
      MatchReadsBack(ps, f);
      AcceptBackIff(ps, ms);
    } else if Match(ps, input).Some? {
      MatchNeedsCleanText(ps, f);
    }
  }

  /** One format: its instant, or an error. */
  lemma OnlyFormat(input: string, format: string)
    ensures TryFormats(input, [format])
      == match TryFormat(input, format)
         case Some(r) => r
         case None => TimeParseError
  {
    hide TryFormat;
    assert [format][1..] == [];
  }

  lemma AcceptBackIff(ps: seq<Piece>, ms: int)
    requires ms % 1000 == 0 && Printable(DhakaComponents(ms))
    ensures Accept(FieldsOf(GroupsOf(ps, DhakaComponents(ms)))) == Some(ms) <==> Expresses(ps, DhakaComponents(ms))
    ensures Expresses(ps, DhakaComponents(ms)) ==> HasTokens(ps)
  {
    hide DhakaComponents, InstantOf, GroupsOf, FieldsOf;
    var f := DhakaComponents(ms);
    FieldsSurviveIff(ps, f);
    AcceptIff(GroupsOf(ps, f));
    InstantReadsBack(ms);
    if Expresses(ps, f) {
      var k :| 0 <= k < |ps| && ps[k] == Tok(MonthTok);
      assert ps[k].Tok?;
    }
  }

  // ---------------------------------------------------------------- toDhaka

  function YearText(y: int): string {
    if y < 0 then "-" + Numeral(-y) else Numeral(y)
  }

  function IsoTimeText(t: Clock): string
    requires IsTime(t)
  {
    "T" + TwoDigits(t.hour) + ":" + TwoDigits(t.minute) + ":" + TwoDigits(t.second) + "+06:00"
  }

  /** ISO-8601 in the Dhaka offset, to the second. */
  function ToDhaka(ms: int): string {
    var f := DhakaComponents(ms);
    CivilIsDate((ms + DHAKA_OFFSET_MS) / MS_PER_DAY);
    YearText(f.date.year) + "-" + TwoDigits(f.date.month) + "-" + TwoDigits(f.date.day) + IsoTimeText(f.time)
  }

  const ISO_PIECES: seq<Piece> := [
    Tok(YearFour), Lit('-'), Tok(MonthTok), Lit('-'), Tok(DayTok), Lit('T'), Tok(HourTok), Lit(':'), Tok(MinuteTok),
    Lit(':'), Tok(SecondTok), Lit('+'), Lit('0'), Lit('6'), Lit(':'), Lit('0'), Lit('0')]

  /** A token that stands in at most one place is counted at most once. */
  lemma {:induction false} CountDistinct(ps: seq<Piece>, t: Token)
    requires forall j, k :: 0 <= j < k < |ps| && ps[j] == Tok(t) ==> ps[k] != Tok(t)
    ensures CountToken(ps, t) <= 1
    ensures Tok(t) !in ps ==> CountToken(ps, t) == 0
    decreases |ps|
  {
    if ps != [] {
      assert ps == [ps[0]] + ps[1..];
      CountDistinct(ps[1..], t);
      if ps[0] == Tok(t) {
        assert Tok(t) !in ps[1..];
      }
    }
  }

  function IsoPlace(t: Token): nat {
    match t
    case YearFour => 0
    case YearTwo => 17
    case MonthTok => 2
    case DayTok => 4
    case HourTok => 6
    case MinuteTok => 8
    case SecondTok => 10
  }

  lemma IsoHolds(k: nat)
    requires k < 17
    ensures |ISO_PIECES| == 17
    ensures ISO_PIECES[k].Tok? ==> IsoPlace(ISO_PIECES[k].token) == k && !ISO_PIECES[k].token.YearTwo?
    ensures ISO_PIECES[k].Lit? ==> !IsTokenLetter(ISO_PIECES[k].c) && '!' <= ISO_PIECES[k].c <= '~'
  {
  }

  lemma CompleteByPlace(ps: seq<Piece>)
    requires |ps| == 17
    requires forall k :: 0 <= k < 17 && ps[k].Tok? ==> IsoPlace(ps[k].token) == k && !ps[k].token.YearTwo?
    requires forall k :: 0 <= k < 17 && ps[k].Lit? ==> !IsTokenLetter(ps[k].c)
    requires forall t: Token :: !t.YearTwo? ==> ps[IsoPlace(t)] == Tok(t)
    ensures Unambiguous(ps) && !RepeatsToken(ps) && forall t: Token :: !t.YearTwo? ==> Tok(t) in ps
  {
    hide CountToken;
    forall t | t in TOKENS ensures CountToken(ps, t) <= 1 {
      CountDistinct(ps, t);
    }
    forall t: Token | !t.YearTwo? ensures Tok(t) in ps {
      assert ps[IsoPlace(t)] == Tok(t);
    }
  }

  lemma IsoIsComplete()
    ensures Unambiguous(ISO_PIECES) && !RepeatsToken(ISO_PIECES)
    ensures forall t: Token :: !t.YearTwo? ==> Tok(t) in ISO_PIECES
  {
    hide Unambiguous, RepeatsToken;
    IsoHolds(0);
    forall k | 0 <= k < 17
      ensures ISO_PIECES[k].Tok? ==> IsoPlace(ISO_PIECES[k].token) == k && !ISO_PIECES[k].token.YearTwo?
      ensures ISO_PIECES[k].Lit? ==> !IsTokenLetter(ISO_PIECES[k].c)
    {
      IsoHolds(k);
    }
    CompleteByPlace(ISO_PIECES);
  }

  lemma RenderFrom(ps: seq<Piece>, k: nat, f: Fields)
    requires Printable(f) && k < |ps|
    ensures Render(ps[k..], f) == PieceText(ps[k], f) + Render(ps[k + 1..], f)
  {
  }

  lemma IsoRendersTail(f: Fields)
    requires Printable(f)
    ensures Render(ISO_PIECES[11..], f) == "+06:00"
  {
    hide Render, FourDigits, TwoDigits;
    var ps := ISO_PIECES;
    assert ps[17..] == [];
    RenderNothing(f);
    RenderFrom(ps, 11, f);
    RenderFrom(ps, 12, f);
    RenderFrom(ps, 13, f);
    RenderFrom(ps, 14, f);
    RenderFrom(ps, 15, f);
    RenderFrom(ps, 16, f);
  }

  lemma IsoRendersTime(f: Fields)
    requires Printable(f)
    ensures Render(ISO_PIECES[5..], f) == IsoTimeText(f.time)
  {
    hide Render, FourDigits, TwoDigits;
    var ps := ISO_PIECES;
    IsoRendersTail(f);
    RenderFrom(ps, 5, f);
    RenderFrom(ps, 6, f);
    RenderFrom(ps, 7, f);
    RenderFrom(ps, 8, f);
    RenderFrom(ps, 9, f);
    RenderFrom(ps, 10, f);
  }

  lemma IsoRenders(f: Fields)
    requires Printable(f)
    ensures Render(ISO_PIECES, f)
      == FourDigits(f.date.year) + "-" + TwoDigits(f.date.month) + "-" + TwoDigits(f.date.day) + IsoTimeText(f.time)
  {
    hide Render, FourDigits, TwoDigits, IsoTimeText;
    var ps := ISO_PIECES;
    assert ps[0..] == ps;
    IsoRendersTime(f);
    RenderFrom(ps, 0, f);
    RenderFrom(ps, 1, f);
    RenderFrom(ps, 2, f);
    RenderFrom(ps, 3, f);
    RenderFrom(ps, 4, f);
  }

  lemma RenderNothing(f: Fields)
    requires Printable(f)
    ensures Render([], f) == ""
  {
  }

  lemma FormatFrom(ps: seq<Piece>, k: nat)
    requires k < |ps|
    ensures FormatText(ps[k..])
      == (match ps[k] case Lit(c) => [c] case Tok(t) => TokenText(t)) + FormatText(ps[k + 1..])
  {
  }

  lemma NoFormat()
    ensures FormatText([]) == ""
  {
  }

  const ISO_FORMAT := "yyyy-MM-ddTHH:mm:ss+06:00"

  lemma IsoOffset()
    ensures FormatText(ISO_PIECES[14..]) == ":00"
  {
    hide FormatText;
    var ps := ISO_PIECES;
    NoFormat();
    assert ps[17..] == [];
    FormatFrom(ps, 14);
    FormatFrom(ps, 15);
    FormatFrom(ps, 16);
  }

  lemma IsoTail()
    ensures FormatText(ISO_PIECES[11..]) == "+06:00"
  {
    hide FormatText;
    IsoOffset();
    FormatFrom(ISO_PIECES, 11);
    FormatFrom(ISO_PIECES, 12);
    FormatFrom(ISO_PIECES, 13);
  }

  lemma IsoSeconds()
    ensures FormatText(ISO_PIECES[8..]) == "mm:ss+06:00"
  {
    hide FormatText;
    IsoTail();
    FormatFrom(ISO_PIECES, 8);
    FormatFrom(ISO_PIECES, 9);
    FormatFrom(ISO_PIECES, 10);
  }

  lemma IsoTime()
    ensures FormatText(ISO_PIECES[5..]) == "THH:mm:ss+06:00"
  {
    hide FormatText;
    IsoSeconds();
    FormatFrom(ISO_PIECES, 5);
    FormatFrom(ISO_PIECES, 6);
    FormatFrom(ISO_PIECES, 7);
  }

  lemma IsoDays()
    ensures FormatText(ISO_PIECES[2..]) == "MM-ddTHH:mm:ss+06:00"
  {
    hide FormatText;
    IsoTime();
    FormatFrom(ISO_PIECES, 2);
    FormatFrom(ISO_PIECES, 3);
    FormatFrom(ISO_PIECES, 4);
  }

  lemma IsoText()
    ensures FormatText(ISO_PIECES) == ISO_FORMAT
  {
    hide FormatText;
    IsoDays();
    assert ISO_PIECES[0..] == ISO_PIECES;
    FormatFrom(ISO_PIECES, 0);
    FormatFrom(ISO_PIECES, 1);
  }

  /** Visible ASCII and inner blanks are clean. */
  lemma AsciiIsClean(s: string)
    requires s != "" && s[0] != ' ' && s[|s| - 1] != ' '
    requires forall i :: 0 <= i < |s| ==> ' ' <= s[i] <= '~'
    ensures CleanText(s)
  {
  }

  lemma IsoIsRead()
    ensures Pieces(ISO_FORMAT) == ISO_PIECES && CleanText(ISO_FORMAT)
  {
    hide Pieces, FormatText, Unambiguous, CleanText;
    AsciiIsClean(ISO_FORMAT);
    IsoIsComplete();
    IsoText();
    FormatReadsBack(ISO_PIECES);
  }

  /** What `toDhaka` prints for a four-digit year is parsed back, under its own format, to the same instant. */
  lemma DhakaRoundTrip(ms: int)
    requires ms % 1000 == 0 && 1000 <= DhakaComponents(ms).date.year <= 9999
    ensures Parse(ToDhaka(ms), [ISO_FORMAT], "Asia/Dhaka") == Instant(ms)
  {
    hide *;
    IsoPrints(ms);
    IsoSuits(ms);
    ParseRendered(ISO_FORMAT, ms);
  }

  lemma IsoPrints(ms: int)
    requires ms % 1000 == 0 && 1000 <= DhakaComponents(ms).date.year <= 9999
    ensures Printable(DhakaComponents(ms)) && ToDhaka(ms) == Render(ISO_PIECES, DhakaComponents(ms))
  {
    hide Render, Numeral, DhakaComponents, TwoDigits, FourDigits;
    InstantReadsBack(ms);
    FourDigitsReadBack(DhakaComponents(ms).date.year);
    IsoRenders(DhakaComponents(ms));
  }

  lemma IsoSuits(ms: int)
    requires ms % 1000 == 0 && Printable(DhakaComponents(ms))
    ensures Pieces(ISO_FORMAT) == ISO_PIECES && CleanText(ISO_FORMAT) && NoTokenTwice(ISO_PIECES)
    ensures Expresses(ISO_PIECES, DhakaComponents(ms))
  {
    hide Pieces, Unambiguous, RepeatsToken, CleanText, DhakaComponents, NoTokenTwice;
    IsoIsRead();
    IsoIsComplete();
    RepeatsIff(ISO_PIECES);
  }

  // ---------------------------------------------------------------- the formats of the shipped rules

  const MINUTE_FORMAT := "dd/MM/yyyy HH:mm"

  const SHORT_FORMAT := "dd/MM/yy HH:mm"

  function MinutePieces(year: Token): seq<Piece> {
    [Tok(DayTok), Lit('/'), Tok(MonthTok), Lit('/'), Tok(year), Lit(' '), Tok(HourTok), Lit(':'), Tok(MinuteTok)]
  }

  lemma MinuteDate(year: Token)
    ensures FormatText(MinutePieces(year)[5..]) == " HH:mm"
  {
    hide FormatText;
    var ps := MinutePieces(year);
    NoFormat();
    assert ps[9..] == [];
    FormatFrom(ps, 5);
    FormatFrom(ps, 6);
    FormatFrom(ps, 7);
    FormatFrom(ps, 8);
  }

  lemma MinuteText(year: Token)
    ensures FormatText(MinutePieces(year)) == "dd/MM/" + TokenText(year) + " HH:mm"
  {
    hide FormatText;
    var ps := MinutePieces(year);
    MinuteDate(year);
    assert ps[0..] == ps;
    FormatFrom(ps, 0);
    FormatFrom(ps, 1);
    FormatFrom(ps, 2);
    FormatFrom(ps, 3);
    FormatFrom(ps, 4);
  }

  lemma MinuteUnambiguous(year: Token)
    requires year == YearFour || year == YearTwo
    ensures Unambiguous(MinutePieces(year))
  {
    if year == YearFour {
      assert TokenText(year) == "yyyy";
    } else {
      assert TokenText(year) == "yy";
    }
  }

  lemma MinuteIsRead(year: Token, format: string)
    requires (year == YearFour && format == MINUTE_FORMAT) || (year == YearTwo && format == SHORT_FORMAT)
    ensures Pieces(format) == MinutePieces(year) && CleanText(format) && !RepeatsToken(MinutePieces(year))
  {
    hide Pieces, FormatText, CountToken;
    AsciiIsClean(format);
    MinuteText(year);
    MinuteUnambiguous(year);
    assert FormatText(MinutePieces(year)) == format by {
      assert TokenText(year) == if year == YearFour then "yyyy" else "yy";
    }
    FormatReadsBack(MinutePieces(year));
    forall t | t in TOKENS ensures CountToken(MinutePieces(year), t) <= 1 {
      CountDistinct(MinutePieces(year), t);
    }
  }

  /** The minute-precision format with a four-digit year gives back every instant on a whole minute. */
  lemma MinuteRoundTrip(ms: int)
    requires ms % 60_000 == 0 && 100 <= DhakaComponents(ms).date.year <= 9999
    ensures Printable(DhakaComponents(ms))
    ensures Parse(Render(Pieces("dd/MM/yyyy HH:mm"), DhakaComponents(ms)), ["dd/MM/yyyy HH:mm"], "Asia/Dhaka")
      == Instant(ms)
  {
    MinuteFormatRoundTrip(ms, YearFour, MINUTE_FORMAT);
  }

  /** With a two-digit year it does so exactly from 1970 to 2069. */
  lemma ShortRoundTripIff(ms: int)
    requires ms % 60_000 == 0 && 100 <= DhakaComponents(ms).date.year <= 9999
    ensures Printable(DhakaComponents(ms))
    ensures
      Parse(Render(Pieces("dd/MM/yy HH:mm"), DhakaComponents(ms)), ["dd/MM/yy HH:mm"], "Asia/Dhaka") == Instant(ms)
      <==> 1970 <= DhakaComponents(ms).date.year <= 2069
  {
    MinuteFormatRoundTrip(ms, YearTwo, SHORT_FORMAT);
  }

  lemma MinuteFormatRoundTrip(ms: int, year: Token, format: string)
    requires ms % 60_000 == 0 && 100 <= DhakaComponents(ms).date.year <= 9999
    requires (year == YearFour && format == MINUTE_FORMAT) || (year == YearTwo && format == SHORT_FORMAT)
    ensures Printable(DhakaComponents(ms))
    ensures Parse(Render(Pieces(format), DhakaComponents(ms)), [format], "Asia/Dhaka") == Instant(ms)
      <==> year == YearFour || 1970 <= DhakaComponents(ms).date.year <= 2069
  {
    hide Parse, Render, Pieces, RepeatsToken, CleanText, Expresses, DhakaComponents, InstantOf;
    var f := DhakaComponents(ms);
    InstantReadsBack(ms);
    WholeMinute(ms);
    MinuteIsRead(year, format);
    RepeatsIff(MinutePieces(year));
    MinuteExpresses(f, year);
    ParseRendered(format, ms);
  }

  lemma MinuteExpresses(f: Fields, year: Token)
    requires f.time.second == 0 && (year == YearFour || year == YearTwo)
    ensures Expresses(MinutePieces(year), f) <==> year == YearFour || 1970 <= f.date.year <= 2069
  {
    var ps := MinutePieces(year);
    assert ps[0] == Tok(DayTok) && ps[2] == Tok(MonthTok) && ps[4] == Tok(year) && ps[6] == Tok(HourTok)
      && ps[8] == Tok(MinuteTok);
    assert forall k :: 0 <= k < |ps| && ps[k] == Tok(YearFour) ==> k == 4;
  }

  lemma WholeMinute(ms: int)
    requires ms % 60_000 == 0
    ensures DhakaComponents(ms).time.second == 0
  {
    hide CivilOf;
    var local := ms + DHAKA_OFFSET_MS;
    var t := local % MS_PER_DAY;
    assert t % 60_000 == 0;
    DivUnique(t, 1000, t / 60_000 * 60, 0);
  }
}
