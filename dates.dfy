/**
 * The date-fragment normaliser of the listing reader (`parse_date`): the text is cut at
 * its first `)`, then the four `datetime.strptime` formats
 *   "%B %d, %Y", "%d %B %Y", "%b %d, %Y", "%d %b %Y"
 * are tried in that order and the first one that accepts gives the date.
 *
 * Each format is modelled the way `strptime` compiles it (C locale, English month names):
 * a space in the format stands for one or more white-space characters, month names are
 * matched without regard to case, `%d` is `3[01]|[12]\d|0[1-9]|[1-9]| [1-9]`, `%Y` is
 * exactly four digits, nothing may remain after the year, and the fields must name a real
 * calendar day in years 1..9999 (otherwise `datetime` raises `ValueError`). Digits are ASCII
 * digits only; Python also accepts other Unicode decimal digits.
 */
module Dates {
  import opened Wrappers
  import opened Text

  datatype Date = Date(year: int, month: int, day: int)

  predicate IsLeapYear(y: int) {
    y % 4 == 0 && (y % 100 != 0 || y % 400 == 0)
  }

  function DaysInMonth(y: int, m: int): int
    requires 1 <= m <= 12
  {
    if m == 2 then (if IsLeapYear(y) then 29 else 28)
    else if m == 4 || m == 6 || m == 9 || m == 11 then 30
    else 31
  }

  /** What `datetime(year, month, day)` accepts. */
  predicate ValidDate(d: Date) {
    1 <= d.year <= 9999 && 1 <= d.month <= 12 && 1 <= d.day <= DaysInMonth(d.year, d.month)
  }

  const FullMonthNames: seq<string> :=
    ["january", "february", "march", "april", "may", "june", "july",
     "august", "september", "october", "november", "december"]

  const AbbreviatedMonthNames: seq<string> :=
    ["jan", "feb", "mar", "apr", "may", "jun", "jul", "aug", "sep", "oct", "nov", "dec"]

  /** `%B` (full month name) or `%b` (abbreviated month name). */
  datatype MonthStyle = FullName | Abbreviated

  /** "%B %d, %Y" puts the month first; "%d %B %Y" puts the day first. */
  datatype FieldOrder = MonthFirst | DayFirst

  datatype Format = Format(style: MonthStyle, order: FieldOrder)

  /** The formats `parse_date` tries, in the order it tries them. */
  const Formats: seq<Format> :=
    [Format(FullName, MonthFirst), Format(FullName, DayFirst),
     Format(Abbreviated, MonthFirst), Format(Abbreviated, DayFirst)]

  function MonthNames(style: MonthStyle): seq<string> {
    match style
    case FullName => FullMonthNames
    case Abbreviated => AbbreviatedMonthNames
  }

  /** The 1-based number of the month whose name equals `word` ignoring case. */
  function MonthNumber(names: seq<string>, word: string): (r: Option<int>)
    ensures r.Some? ==> 1 <= r.value <= |names| && names[r.value - 1] == LowerString(word)
    ensures r.None? ==> LowerString(word) !in names
  {
    MonthNumberFrom(names, LowerString(word), 0)
  }

  function MonthNumberFrom(names: seq<string>, key: string, i: nat): (r: Option<int>)
    requires i <= |names|
    ensures r.Some? ==> i + 1 <= r.value <= |names| && names[r.value - 1] == key
    ensures r.Some? ==> key !in names[i..r.value - 1]
    ensures r.None? ==> key !in names[i..]
    decreases |names| - i
  {
    if i == |names| then None
    else if names[i] == key then Some(i + 1)
    else MonthNumberFrom(names, key, i + 1)
  }

  /**
   * `%d`. The regular expression tries the two-digit forms before the one-digit ones and
   * backtracks; since in every format a day is followed by `,` or white space (never a
   * digit), taking two digits whenever they form 01..31 accepts exactly the same texts.
   */
  function ReadDay(s: string): (r: Option<(int, string)>)
    ensures r.Some? ==> 1 <= r.value.0 <= 31 && |r.value.1| < |s| && r.value.1 == s[|s| - |r.value.1|..]
  {
    if |s| >= 2 && s[0] == ' ' && '1' <= s[1] <= '9' then Some((DigitValue(s[1]), s[2..]))
    else if |s| >= 2 && IsDigit(s[0]) && IsDigit(s[1]) && 1 <= 10 * DigitValue(s[0]) + DigitValue(s[1]) <= 31 then
      Some((10 * DigitValue(s[0]) + DigitValue(s[1]), s[2..]))
    else if |s| >= 1 && '1' <= s[0] <= '9' then Some((DigitValue(s[0]), s[1..]))
    else None
  }

  /** `%Y` at the end of the text: exactly four digits and nothing after them. */
  function ReadYear(s: string): (r: Option<int>)
    ensures r.Some? <==> |s| == 4 && IsDigit(s[0]) && IsDigit(s[1]) && IsDigit(s[2]) && IsDigit(s[3])
    ensures r.Some? ==> 0 <= r.value <= 9999
  {
    if |s| == 4 && IsDigit(s[0]) && IsDigit(s[1]) && IsDigit(s[2]) && IsDigit(s[3]) then
      Some(1000 * DigitValue(s[0]) + 100 * DigitValue(s[1]) + 10 * DigitValue(s[2]) + DigitValue(s[3]))
    else None
  }

  /**
   * The layout of a format without the month-name check: the month word (a maximal run of
   * letters), the day and the year. A space in the format is one or more white-space
   * characters.
   */
  function MatchFields(order: FieldOrder, s: string): Option<(string, int, int)> {
    match order
    case MonthFirst => MatchMonthFirst(s)
    case DayFirst => MatchDayFirst(s)
  }

  /** "%B %d, %Y" and "%b %d, %Y". */
  function MatchMonthFirst(s: string): Option<(string, int, int)> {
    var n := LetterRun(s);
    var r1 := s[n..];
    var a := SpaceRun(r1);
    if n == 0 || a == 0 then None
    else
      match ReadDay(r1[a..])
      case None => None
      case Some((d, r2)) =>
        if r2 == [] || r2[0] != ',' then None
        else
          var r3 := r2[1..];
          var b := SpaceRun(r3);
          if b == 0 then None
          else
            match ReadYear(r3[b..])
            case None => None
            case Some(y) => Some((s[..n], d, y))
  }

  /** "%d %B %Y" and "%d %b %Y". */
  function MatchDayFirst(s: string): Option<(string, int, int)> {
    match ReadDay(s)
    case None => None
    case Some((d, r1)) =>
      var a := SpaceRun(r1);
      var r2 := r1[a..];
      var n := LetterRun(r2);
      var r3 := r2[n..];
      var b := SpaceRun(r3);
      if a == 0 || n == 0 || b == 0 then None
      else
        match ReadYear(r3[b..])
        case None => None
        case Some(y) => Some((r2[..n], d, y))
  }

  /** `datetime.strptime(s, fmt)`: the date, or `None` where it raises `ValueError`. */
  function TryFormat(f: Format, s: string): (r: Option<Date>)
    ensures r.Some? ==> ValidDate(r.value)
  {
    match MatchFields(f.order, s)
    case None => None
    case Some((word, d, y)) =>
      match MonthNumber(MonthNames(f.style), word)
      case None => None
      case Some(m) => if ValidDate(Date(y, m, d)) then Some(Date(y, m, d)) else None
  }

  /** `s.split(')')[0]`: the text before the first `)`, or all of it. */
  function CutAtParen(s: string): (r: string)
    ensures ')' !in r
    ensures |r| <= |s| && r == s[..|r|]
    ensures |r| == |s| || s[|r|] == ')'
  {
    if s == [] || s[0] == ')' then [] else [s[0]] + CutAtParen(s[1..])
  }

  /** The first format of `fs` that accepts `s`, tried in order. */
  function FirstSuccess(fs: seq<Format>, s: string): Option<Date> {
    if fs == [] then None
    else
      match TryFormat(fs[0], s)
      case Some(d) => Some(d)
      case None => FirstSuccess(fs[1..], s)
  }

  /** `parse_date`: never fails; `None` when no format accepts the text before the first `)`. */
  function ParseDate(s: string): (r: Option<Date>)
    ensures r.Some? ==> ValidDate(r.value)
  {
    FirstSuccessValid(Formats, CutAtParen(s));
    FirstSuccess(Formats, CutAtParen(s))
  }

  lemma {:induction false} FirstSuccessValid(fs: seq<Format>, s: string)
    ensures FirstSuccess(fs, s).Some? ==> ValidDate(FirstSuccess(fs, s).value)
  {
    if fs != [] && TryFormat(fs[0], s).None? {
      FirstSuccessValid(fs[1..], s);
    }
  }

  /** Format `k` is the first of `fs` that accepts `s`. */
  predicate AcceptsFirst(fs: seq<Format>, s: string, k: int) {
    && 0 <= k < |fs|
    && TryFormat(fs[k], s).Some?
    && forall j :: 0 <= j < k ==> TryFormat(fs[j], s).None?
  }

  lemma {:induction false} FirstSuccessIsFirstAccepting(fs: seq<Format>, s: string)
    ensures FirstSuccess(fs, s).None? <==> forall k :: 0 <= k < |fs| ==> TryFormat(fs[k], s).None?
    ensures FirstSuccess(fs, s).Some? ==>
      exists k :: AcceptsFirst(fs, s, k) && FirstSuccess(fs, s) == TryFormat(fs[k], s)
  {
    if fs != [] {
      FirstSuccessIsFirstAccepting(fs[1..], s);
      if TryFormat(fs[0], s).Some? {
        assert AcceptsFirst(fs, s, 0);
      } else {
        assert forall k :: 1 <= k < |fs| ==> fs[k] == fs[1..][k - 1];
        if FirstSuccess(fs, s).Some? {
          var k :| AcceptsFirst(fs[1..], s, k) && FirstSuccess(fs[1..], s) == TryFormat(fs[1..][k], s);
          assert AcceptsFirst(fs, s, k + 1);
        }
      }
    }
  }

  /**
   * `parse_date` returns what the first accepting format returns on the text before the
   * first `)`, and `None` exactly when none of the four accepts it.
   */
  lemma ParseDateFirstAccepting(s: string)
    ensures ParseDate(s).None? <==> forall k :: 0 <= k < 4 ==> TryFormat(Formats[k], CutAtParen(s)).None?
    ensures ParseDate(s).Some? ==>
      exists k :: AcceptsFirst(Formats, CutAtParen(s), k) && ParseDate(s) == TryFormat(Formats[k], CutAtParen(s))
  {
    FirstSuccessIsFirstAccepting(Formats, CutAtParen(s));
  }

  /** Whatever follows the first `)` has no effect on the result. */
  lemma {:induction false} ParseDateIgnoresAfterParen(a: string, b: string)
    requires ')' !in a
    ensures ParseDate(a + ")" + b) == ParseDate(a)
  {
    CutAtParenPrefix(a, b);
    CutAtParenPrefix(a, []);
  }

  lemma {:induction false} CutAtParenPrefix(a: string, b: string)
    requires ')' !in a
    ensures CutAtParen(a + ")" + b) == a
    ensures CutAtParen(a) == a
  {
    if a != [] {
      assert (a + ")" + b)[1..] == a[1..] + ")" + b;
      CutAtParenPrefix(a[1..], b);
    }
  }

  // Writing a date in each format, and reading it back.

  /** A month name as printed: its first letter in upper case. */
  function Capitalised(name: string): (r: string)
    ensures |r| == |name|
  {
    if name == [] then [] else [Upper(name[0])] + name[1..]
  }

  /** A year as four digits, zero-padded. */
  function Year4(y: int): (r: string)
    requires 0 <= y <= 9999
    ensures |r| == 4 && forall i :: 0 <= i < 4 ==> IsDigit(r[i])
  {
    var q1 := y / 10;
    var q2 := q1 / 10;
    var q3 := q2 / 10;
    [DigitChar(q3), DigitChar(q2 % 10), DigitChar(q1 % 10), DigitChar(y % 10)]
  }

  /** `d` written in format `f`, the day without padding ("March 3, 1985", "3 Mar 1985"). */
  function Render(f: Format, d: Date): string
    requires ValidDate(d)
  {
    var name := Capitalised(MonthNames(f.style)[d.month - 1]);
    match f.order
    case MonthFirst => name + (" " + (Decimal(d.day) + (", " + Year4(d.year))))
    case DayFirst => Decimal(d.day) + (" " + (name + (" " + Year4(d.year))))
  }

  predicate LowerLetters(w: string) {
    forall i :: 0 <= i < |w| ==> 'a' <= w[i] <= 'z'
  }

  lemma MonthNamesShape(style: MonthStyle)
    ensures |MonthNames(style)| == 12
    ensures forall i :: 0 <= i < 12 ==> |MonthNames(style)[i]| >= 3 && LowerLetters(MonthNames(style)[i])
    ensures forall i, j :: 0 <= i < j < 12 ==> MonthNames(style)[i] != MonthNames(style)[j]
  {
    var names := MonthNames(style);
    forall i | 0 <= i < 12 ensures |names[i]| >= 3 && LowerLetters(names[i]) && names[i][..3] == AbbreviatedMonthNames[i] {
      MonthNameShape(style, i);
    }
    forall i, j | 0 <= i < j < 12 ensures names[i] != names[j] {
      assert names[i][..3] == AbbreviatedMonthNames[i] && names[j][..3] == AbbreviatedMonthNames[j];
      AbbreviationsDistinct(i, j);
    }
  }

  /** Each month name is lower-case letters and starts with its three-letter abbreviation. */
  lemma MonthNameShape(style: MonthStyle, i: int)
    requires 0 <= i < 12
    ensures |MonthNames(style)| == 12
    ensures |MonthNames(style)[i]| >= 3 && LowerLetters(MonthNames(style)[i])
    ensures MonthNames(style)[i][..3] == AbbreviatedMonthNames[i]
  {
  }

  lemma AbbreviationsDistinct(i: int, j: int)
    requires 0 <= i < j < 12
    ensures AbbreviatedMonthNames[i] != AbbreviatedMonthNames[j]
  {
  }

  /** The only abbreviated month name that is also a full month name is "may". */
  lemma AbbreviationAmongFullNames(i: int, j: int)
    requires 0 <= i < 12 && 0 <= j < 12
    requires AbbreviatedMonthNames[i] == FullMonthNames[j]
    ensures i == j == 4
  {
    assert |FullMonthNames[j]| == 3;
  }

  lemma {:induction false} LetterRunOf(w: string, rest: string)
    requires forall i :: 0 <= i < |w| ==> IsLetter(w[i])
    requires rest == [] || !IsLetter(rest[0])
    ensures LetterRun(w + rest) == |w|
  {
    if w != [] {
      assert (w + rest)[1..] == w[1..] + rest;
      LetterRunOf(w[1..], rest);
    }
  }

  lemma CapitalisedLetters(name: string)
    requires LowerLetters(name)
    ensures forall i :: 0 <= i < |Capitalised(name)| ==> IsLetter(Capitalised(name)[i])
    ensures LowerString(Capitalised(name)) == name
  {
  }

  lemma ReadDayOf(day: int, rest: string)
    requires 1 <= day <= 31
    requires rest != [] && !IsDigit(rest[0])
    ensures ReadDay(Decimal(day) + rest) == Some((day, rest))
  {
    var s := Decimal(day) + rest;
    if day >= 10 {
      assert Decimal(day) == Decimal(day / 10) + [DigitChar(day % 10)];
      assert s[2..] == rest;
    } else {
      assert s[1..] == rest;
    }
  }

  lemma DigitRoundTrip(k: nat)
    requires k < 10
    ensures DigitValue(DigitChar(k)) == k
  {
  }

  lemma ReadYearOf(y: int)
    requires 0 <= y <= 9999
    ensures ReadYear(Year4(y)) == Some(y)
  {
    var q1 := y / 10;
    var q2 := q1 / 10;
    var q3 := q2 / 10;
    DigitRoundTrip(q3);
    DigitRoundTrip(q2 % 10);
    DigitRoundTrip(q1 % 10);
    DigitRoundTrip(y % 10);
    assert y == 10 * q1 + y % 10;
    assert q1 == 10 * q2 + q1 % 10;
    assert q2 == 10 * q3 + q2 % 10;
  }

  /** Writing back the value of a digit gives the digit. */
  lemma DigitValueRoundTrip(c: char)
    requires IsDigit(c)
    ensures DigitChar(DigitValue(c)) == c
  {
  }

  /** The zero-padded (`"03"`) and space-padded (`" 3"`) days that `%d` also accepts. */
  lemma ReadDayPadded(day: int, rest: string)
    requires 1 <= day <= 9
    ensures ReadDay("0" + Decimal(day) + rest) == Some((day, rest))
    ensures ReadDay(" " + Decimal(day) + rest) == Some((day, rest))
  {
    assert ("0" + Decimal(day) + rest)[2..] == rest;
    assert (" " + Decimal(day) + rest)[2..] == rest;
  }

  /** Whatever `%d` accepts is the day it reads, written plainly or padded with `0` or a space. */
  lemma ReadDaySpells(s: string)
    requires ReadDay(s).Some?
    ensures var (v, rest) := ReadDay(s).value;
      || s == Decimal(v) + rest
      || (v < 10 && (s == "0" + Decimal(v) + rest || s == " " + Decimal(v) + rest))
  {
    var (v, rest) := ReadDay(s).value;
    if |s| >= 2 && s[0] == ' ' && '1' <= s[1] <= '9' {
      DigitValueRoundTrip(s[1]);
      assert s == " " + Decimal(v) + rest;
    } else if |s| >= 2 && IsDigit(s[0]) && IsDigit(s[1]) && 1 <= 10 * DigitValue(s[0]) + DigitValue(s[1]) <= 31 {
      DigitValueRoundTrip(s[0]);
      DigitValueRoundTrip(s[1]);
      var a, b := DigitValue(s[0]), DigitValue(s[1]);
      if a == 0 {
        assert Decimal(v) == [s[1]];
        assert s == "0" + Decimal(v) + rest;
      } else {
        assert v / 10 == a && v % 10 == b;
        assert Decimal(v) == [s[0], s[1]];
        assert s == Decimal(v) + rest;
      }
    } else {
      DigitValueRoundTrip(s[0]);
      assert s == Decimal(v) + rest;
    }
  }

  /** Whatever `%Y` accepts is the year it reads, written with four digits. */
  lemma ReadYearSpells(s: string)
    requires ReadYear(s).Some?
    ensures s == Year4(ReadYear(s).value)
  {
    var y := ReadYear(s).value;
    var a, b, c, e := DigitValue(s[0]), DigitValue(s[1]), DigitValue(s[2]), DigitValue(s[3]);
    assert y / 10 == 100 * a + 10 * b + c && y % 10 == e;
    assert y / 10 / 10 == 10 * a + b && (y / 10) % 10 == c;
    assert y / 10 / 10 / 10 == a && (y / 10 / 10) % 10 == b;
    DigitValueRoundTrip(s[0]);
    DigitValueRoundTrip(s[1]);
    DigitValueRoundTrip(s[2]);
    DigitValueRoundTrip(s[3]);
  }

  lemma {:induction false} MonthNumberOfName(style: MonthStyle, m: int)
    requires 1 <= m <= 12
    ensures MonthNumber(MonthNames(style), Capitalised(MonthNames(style)[m - 1])) == Some(m)
  {
    var names := MonthNames(style);
    MonthNamesShape(style);
    CapitalisedLetters(names[m - 1]);
  }

  /** `MatchMonthFirst` step by step: the fields it reads when each step succeeds. */
  lemma MatchMonthFirstSteps(s: string, n: nat, word: string, r1: string, a: nat, d: int, r2: string, r3: string, b: nat, y: int)
    requires LetterRun(s) == n && n > 0 && word == s[..n] && r1 == s[n..]
    requires SpaceRun(r1) == a && a > 0
    requires ReadDay(r1[a..]) == Some((d, r2))
    requires r2 != [] && r2[0] == ',' && r3 == r2[1..]
    requires SpaceRun(r3) == b && b > 0
    requires ReadYear(r3[b..]) == Some(y)
    ensures MatchMonthFirst(s) == Some((word, d, y))
  {
  }

  /** `MatchDayFirst` step by step: the fields it reads when each step succeeds. */
  lemma MatchDayFirstSteps(s: string, d: int, r1: string, a: nat, r2: string, n: nat, word: string, r3: string, b: nat, y: int)
    requires ReadDay(s) == Some((d, r1))
    requires SpaceRun(r1) == a && a > 0 && r2 == r1[a..]
    requires LetterRun(r2) == n && n > 0 && word == r2[..n] && r3 == r2[n..]
    requires SpaceRun(r3) == b && b > 0
    requires ReadYear(r3[b..]) == Some(y)
    ensures MatchDayFirst(s) == Some((word, d, y))
  {
  }

  lemma {:induction false} MatchMonthFirstOf(name: string, digits: string, day: int, year: string, y: int)
    requires name != [] && forall i :: 0 <= i < |name| ==> IsLetter(name[i])
    requires digits != [] && IsDigit(digits[0]) && ReadDay(digits + (", " + year)) == Some((day, ", " + year))
    requires ReadYear(year) == Some(y)
    ensures MatchMonthFirst(name + (" " + (digits + (", " + year)))) == Some((name, day, y))
  {
    var tail := ", " + year;
    var r1 := " " + (digits + tail);
    var s := name + r1;
    assert LetterRun(s) == |name| && s[|name|..] == r1 && s[..|name|] == name by {
      LetterRunOf(name, r1);
    }
    assert SpaceRun(r1) == 1 && r1[1..] == digits + tail by {
      assert r1[1] == digits[0];
      SpaceRunOne(r1);
    }
    assert SpaceRun(tail[1..]) == 1 && tail[1..][1..] == year by {
      assert tail[1..][1] == year[0];
      SpaceRunOne(tail[1..]);
    }
    MatchMonthFirstSteps(s, |name|, name, r1, 1, day, tail, tail[1..], 1, y);
  }

  lemma {:induction false} MatchDayFirstOf(name: string, digits: string, day: int, year: string, y: int)
    requires name != [] && forall i :: 0 <= i < |name| ==> IsLetter(name[i])
    requires ReadDay(digits + (" " + (name + (" " + year)))) == Some((day, " " + (name + (" " + year))))
    requires ReadYear(year) == Some(y)
    ensures MatchDayFirst(digits + (" " + (name + (" " + year)))) == Some((name, day, y))
  {
    var r3 := " " + year;
    var r2 := name + r3;
    var r1 := " " + r2;
    DayFirstPieces(name, year);
    MatchDayFirstSteps(digits + r1, day, r1, 1, r2, |name|, name, r3, 1, y);
  }

  /** How the text after the day of "%d %B %Y" splits into its white space, month word and year. */
  lemma DayFirstPieces(name: string, year: string)
    requires name != [] && forall i :: 0 <= i < |name| ==> IsLetter(name[i])
    requires |year| == 4 && IsDigit(year[0])
    ensures var r3 := " " + year; var r2 := name + r3; var r1 := " " + r2;
      && SpaceRun(r1) == 1 && r1[1..] == r2
      && LetterRun(r2) == |name| && r2[..|name|] == name && r2[|name|..] == r3
      && SpaceRun(r3) == 1 && r3[1..] == year
  {
    var r3 := " " + year;
    var r2 := name + r3;
    var r1 := " " + r2;
    assert SpaceRun(r1) == 1 && r1[1..] == r2 by {
      assert r1[1] == name[0];
      SpaceRunOne(r1);
    }
    assert LetterRun(r2) == |name| && r2[..|name|] == name && r2[|name|..] == r3 by {
      LetterRunOf(name, r3);
    }
    assert SpaceRun(r3) == 1 && r3[1..] == year by {
      assert r3[1] == year[0];
      SpaceRunOne(r3);
    }
  }

  /** The fields of a date written in format `f`: its printed month name, its day and its year. */
  lemma {:induction false} MatchFieldsOfRendered(f: Format, d: Date)
    requires ValidDate(d)
    ensures MatchFields(f.order, Render(f, d)) == Some((Capitalised(MonthNames(f.style)[d.month - 1]), d.day, d.year))
  {
    MonthNamesShape(f.style);
    var name := Capitalised(MonthNames(f.style)[d.month - 1]);
    CapitalisedLetters(MonthNames(f.style)[d.month - 1]);
    ReadYearOf(d.year);
    var year := Year4(d.year);
    match f.order
    case MonthFirst =>
      ReadDayOf(d.day, ", " + year);
      MatchMonthFirstOf(name, Decimal(d.day), d.day, year, d.year);
    case DayFirst =>
      ReadDayOf(d.day, " " + (name + (" " + year)));
      MatchDayFirstOf(name, Decimal(d.day), d.day, year, d.year);
  }

  /** Reading back a date written in format `f` gives that date. */
  lemma {:induction false} RenderRoundTrip(f: Format, d: Date)
    requires ValidDate(d)
    ensures TryFormat(f, Render(f, d)) == Some(d)
  {
    MatchFieldsOfRendered(f, d);
    MonthNumberOfName(f.style, d.month);
  }

  lemma RenderedStart(f: Format, d: Date)
    requires ValidDate(d)
    ensures Render(f, d) != []
    ensures f.order == MonthFirst ==> IsLetter(Render(f, d)[0])
    ensures f.order == DayFirst ==> IsDigit(Render(f, d)[0])
  {
    MonthNamesShape(f.style);
    CapitalisedLetters(MonthNames(f.style)[d.month - 1]);
  }

  lemma LetterStartIsNotDayFirst(s: string)
    requires s != [] && IsLetter(s[0])
    ensures MatchDayFirst(s).None?
  {
  }

  lemma DigitStartIsNotMonthFirst(s: string)
    requires s != [] && IsDigit(s[0])
    ensures MatchMonthFirst(s).None?
  {
  }

  /** The month name printed by `Render` is read back as month `m'` only when `m'` is that month. */
  lemma {:induction false} OtherStyleMonth(f: Format, g: Format, d: Date)
    requires ValidDate(d) && g.style != f.style
    ensures var gm := MonthNumber(MonthNames(g.style), Capitalised(MonthNames(f.style)[d.month - 1]));
      gm.None? || gm == Some(d.month)
  {
    MonthNamesShape(f.style);
    CapitalisedLetters(MonthNames(f.style)[d.month - 1]);
    var gm := MonthNumber(MonthNames(g.style), Capitalised(MonthNames(f.style)[d.month - 1]));
    if gm.Some? {
      if f.style == Abbreviated {
        AbbreviationAmongFullNames(d.month - 1, gm.value - 1);
      } else {
        AbbreviationAmongFullNames(gm.value - 1, d.month - 1);
      }
    }
  }

  /**
   * A format other than `f` never reads a different date out of a date written in format
   * `f`: it either rejects the text or agrees.
   */
  lemma {:induction false} OtherFormatAgrees(g: Format, f: Format, d: Date)
    requires ValidDate(d)
    ensures TryFormat(g, Render(f, d)) == None || TryFormat(g, Render(f, d)) == Some(d)
  {
    var s := Render(f, d);
    if g.order != f.order {
      RenderedStart(f, d);
      if f.order == MonthFirst {
        LetterStartIsNotDayFirst(s);
      } else {
        DigitStartIsNotMonthFirst(s);
      }
    } else if g.style != f.style {
      MatchFieldsOfRendered(f, d);
      OtherStyleMonth(f, g, d);
    } else {
      RenderRoundTrip(f, d);
    }
  }

  lemma RenderHasNoParen(f: Format, d: Date)
    requires ValidDate(d)
    ensures ')' !in Render(f, d)
  {
    var name := Capitalised(MonthNames(f.style)[d.month - 1]);
    assert ')' !in name by {
      MonthNamesShape(f.style);
      CapitalisedLetters(MonthNames(f.style)[d.month - 1]);
      forall i | 0 <= i < |name| ensures name[i] != ')' {
        assert IsLetter(name[i]);
      }
    }
    assert ')' !in Decimal(d.day) by {
      var r := Decimal(d.day);
      forall i | 0 <= i < |r| ensures r[i] != ')' {
        assert IsDigit(r[i]);
      }
    }
    assert ')' !in Year4(d.year) by {
      var r := Year4(d.year);
      forall i | 0 <= i < |r| ensures r[i] != ')' {
        assert IsDigit(r[i]);
      }
    }
  }

  /**
   * Format invariance: a date written in any of the four formats is read back as that
   * same date by `parse_date`, so its ISO text does not depend on the format.
   */
  lemma {:induction false} ParseDateOfRendered(k: int, d: Date)
    requires 0 <= k < 4 && ValidDate(d)
    ensures ParseDate(Render(Formats[k], d)) == Some(d)
  {
    var s := Render(Formats[k], d);
    RenderHasNoParen(Formats[k], d);
    CutAtParenPrefix(s, []);
    FirstSuccessIsFirstAccepting(Formats, s);
    forall j | 0 <= j < 4
      ensures TryFormat(Formats[j], s) == None || TryFormat(Formats[j], s) == Some(d)
    {
      OtherFormatAgrees(Formats[j], Formats[k], d);
    }
    RenderRoundTrip(Formats[k], d);
  }

  /**
   * `strftime("%Y-%m-%d")`, with the year zero-padded to four digits as recent CPython releases
   * write `%Y`, then the two-digit month and day.
   */
  function IsoText(d: Date): (r: string)
    requires ValidDate(d)
    ensures |r| == 10 && r[4] == '-' && r[7] == '-'
    ensures ReadIso(r) == Some(d)
  {
    assert ReadIso(Year4(d.year) + "-" + Pad2(d.month) + "-" + Pad2(d.day)) == Some(d) by {
      IsoFields(d);
    }
    Year4(d.year) + "-" + Pad2(d.month) + "-" + Pad2(d.day)
  }

  /** Two digits read as a number, as a reader of the ISO text would read a month or a day. */
  function ReadTwo(s: string): (r: Option<int>)
    ensures r.Some? ==> 0 <= r.value <= 99
  {
    if |s| == 2 && IsDigit(s[0]) && IsDigit(s[1]) then Some(10 * DigitValue(s[0]) + DigitValue(s[1])) else None
  }

  /** Reads `YYYY-MM-DD` back into its three fields. */
  function ReadIso(s: string): (r: Option<Date>)
    ensures r.Some? ==> |s| == 10 && s[4] == '-' && s[7] == '-'
  {
    if |s| == 10 && s[4] == '-' && s[7] == '-' then
      match (ReadYear(s[..4]), ReadTwo(s[5..7]), ReadTwo(s[8..]))
      case (Some(y), Some(m), Some(d)) => Some(Date(y, m, d))
      case _ => None
    else None
  }

  lemma ReadTwoOfPad2(n: int)
    requires 0 <= n < 100
    ensures ReadTwo(Pad2(n)) == Some(n)
  {
    DigitRoundTrip(n / 10);
    DigitRoundTrip(n % 10);
  }

  /** The fields of a date are read back from its ISO text. */
  lemma IsoFields(d: Date)
    requires ValidDate(d)
    ensures ReadIso(Year4(d.year) + "-" + Pad2(d.month) + "-" + Pad2(d.day)) == Some(d)
  {
    var s := Year4(d.year) + "-" + Pad2(d.month) + "-" + Pad2(d.day);
    ReadYearOf(d.year);
    ReadTwoOfPad2(d.month);
    ReadTwoOfPad2(d.day);
    assert s[..4] == Year4(d.year);
    assert s[5..7] == Pad2(d.month);
    assert s[8..] == Pad2(d.day);
  }

  /** Storing the ISO text instead of the date loses nothing: distinct dates give distinct texts. */
  lemma IsoTextInjective(d1: Date, d2: Date)
    requires ValidDate(d1) && ValidDate(d2)
    requires IsoText(d1) == IsoText(d2)
    ensures d1 == d2
  {
  }
}
