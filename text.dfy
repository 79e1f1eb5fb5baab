/**
 * The few Python string operations the ETL job relies on, over `seq<char>`:
 * `str.isspace` (also the `\s` class of a `str` regular expression), `str.strip`,
 * `str.replace` of one character, `str.title`, substring search and the
 * `{:02d}` integer format.
 */
module Text {

  /** Python's `str.isspace`: the Unicode white-space characters and the ASCII separators 0x1C-0x1F. */
  predicate IsSpace(c: char) {
    || c == ' '
    || '\t' <= c <= '\r'
    || '\U{1C}' <= c <= '\U{1F}'
    || c == '\U{85}' || c == '\U{A0}' || c == '\U{1680}'
    || '\U{2000}' <= c <= '\U{200A}'
    || c == '\U{2028}' || c == '\U{2029}' || c == '\U{202F}' || c == '\U{205F}' || c == '\U{3000}'
  }

  predicate IsLetter(c: char) {
    'a' <= c <= 'z' || 'A' <= c <= 'Z'
  }

  predicate IsDigit(c: char) {
    '0' <= c <= '9'
  }

  predicate AllSpace(s: string) {
    forall i :: 0 <= i < |s| ==> IsSpace(s[i])
  }

  /** No line break: what the regular-expression dot accepts. */
  predicate NoNewline(s: string) {
    forall i :: 0 <= i < |s| ==> s[i] != '\n'
  }

  function Lower(c: char): char {
    if 'A' <= c <= 'Z' then (c as int + 32) as char else c
  }

  function Upper(c: char): char {
    if 'a' <= c <= 'z' then (c as int - 32) as char else c
  }

  function LowerString(s: string): (r: string)
    ensures |r| == |s| && forall i :: 0 <= i < |s| ==> r[i] == Lower(s[i])
  {
    seq(|s|, i requires 0 <= i < |s| => Lower(s[i]))
  }

  /** Length of the longest prefix of `s` made of white space. */
  function SpaceRun(s: string): (n: nat)
    ensures n <= |s| && AllSpace(s[..n])
    ensures n == |s| || !IsSpace(s[n])
  {
    var n := SpaceEnd(s, 0);
    assert forall i :: 0 <= i < n ==> s[..n][i] == s[i];
    n
  }

  /** Where the run of white space that starts at `i` ends. */
  function SpaceEnd(s: string, i: nat): (n: nat)
    requires i <= |s|
    ensures i <= n <= |s| && forall j :: i <= j < n ==> IsSpace(s[j])
    ensures n == |s| || !IsSpace(s[n])
    decreases |s| - i
  {
    if i < |s| && IsSpace(s[i]) then SpaceEnd(s, i + 1) else i
  }

  lemma SpaceRunOne(s: string)
    requires |s| >= 2 && IsSpace(s[0]) && !IsSpace(s[1])
    ensures SpaceRun(s) == 1
  {
    assert s[..1][0] == s[0];
  }

  /** A run of `i` spaces followed by a non-space is the longest white-space prefix. */
  lemma SpaceRunAt(s: string, i: nat)
    requires i < |s| && AllSpace(s[..i]) && !IsSpace(s[i])
    ensures SpaceRun(s) == i
  {
  }

  /** Any white-space prefix is no longer than the longest one. */
  lemma SpaceRunAtLeast(s: string, i: nat)
    requires i <= |s| && AllSpace(s[..i])
    ensures i <= SpaceRun(s)
  {
  }

  /** Length of the longest suffix of `s` made of white space. */
  function TrailingSpaceRun(s: string): (n: nat)
    ensures n <= |s| && AllSpace(s[|s| - n..])
    ensures n == |s| || !IsSpace(s[|s| - n - 1])
  {
    if s != [] && IsSpace(s[|s| - 1]) then 1 + TrailingSpaceRun(s[..|s| - 1]) else 0
  }

  /** Length of the longest prefix of `s` made of ASCII letters. */
  function LetterRun(s: string): (n: nat)
    ensures n <= |s| && forall i :: 0 <= i < n ==> IsLetter(s[i])
    ensures n == |s| || !IsLetter(s[n])
  {
    if s != [] && IsLetter(s[0]) then 1 + LetterRun(s[1..]) else 0
  }

  /** Python's `str.strip()`: drops leading and trailing white space. */
  function Strip(s: string): (r: string)
    ensures r == [] || (!IsSpace(r[0]) && !IsSpace(r[|r| - 1]))
    ensures exists i :: 0 <= i <= |s| - |r| && s[i..i + |r|] == r && AllSpace(s[..i]) && AllSpace(s[i + |r|..])
  {
    var a := SpaceRun(s);
    var t := s[a..];
    var b := TrailingSpaceRun(t);
    var r := t[..|t| - b];
    assert s[a..a + |r|] == r;
    assert s[a + |r|..] == t[|t| - b..];
    r
  }

  /** Text that neither starts nor ends with white space is its own strip. */
  lemma StripUnchanged(s: string)
    requires s == [] || (!IsSpace(s[0]) && !IsSpace(s[|s| - 1]))
    ensures Strip(s) == s
  {
    if s != [] {
      SpaceRunAt(s, 0);
      assert s[0..] == s;
    }
  }

  /** Python's `str.replace(from, to)` for single characters. */
  function ReplaceChar(s: string, from: char, to: char): (r: string)
    ensures |r| == |s|
    ensures forall i :: 0 <= i < |s| ==> r[i] == if s[i] == from then to else s[i]
  {
    seq(|s|, i requires 0 <= i < |s| => if s[i] == from then to else s[i])
  }

  /**
   * Python's `str.title()` restricted to ASCII case mapping: a character is upper-cased
   * when the character before it (in the input) is not a letter, and lower-cased otherwise.
   */
  function Title(s: string): (r: string)
    ensures |r| == |s|
  {
    TitleFrom(s, false)
  }

  function TitleFrom(s: string, previousCased: bool): (r: string)
    ensures |r| == |s|
  {
    if s == [] then []
    else [if previousCased then Lower(s[0]) else Upper(s[0])] + TitleFrom(s[1..], IsLetter(s[0]))
  }

  lemma {:induction false} TitleFromAt(s: string, previousCased: bool, i: nat)
    requires i < |s|
    ensures TitleFrom(s, previousCased)[i] ==
      if (if i == 0 then previousCased else IsLetter(s[i - 1])) then Lower(s[i]) else Upper(s[i])
  {
    if i > 0 {
      TitleFromAt(s[1..], IsLetter(s[0]), i - 1);
    }
  }

  /** Each character of `Title(s)` is cased by the character that precedes it in `s`. */
  lemma TitleAt(s: string, i: nat)
    requires i < |s|
    ensures Title(s)[i] == if i > 0 && IsLetter(s[i - 1]) then Lower(s[i]) else Upper(s[i])
  {
    TitleFromAt(s, false, i);
  }

  /** `Title(s)` is the text whose every character is cased as `TitleAt` says. */
  lemma TitleEach(s: string, r: string)
    requires |r| == |s|
    requires forall i :: 0 <= i < |s| ==> r[i] == if i > 0 && IsLetter(s[i - 1]) then Lower(s[i]) else Upper(s[i])
    ensures Title(s) == r
  {
    forall i | 0 <= i < |s| ensures Title(s)[i] == r[i] {
      TitleAt(s, i);
      assert r[i] == if i > 0 && IsLetter(s[i - 1]) then Lower(s[i]) else Upper(s[i]);
    }
  }

  /** Title-casing only changes the case of letters: letters stay letters, other characters stay. */
  lemma TitleKeepsShape(s: string, i: nat)
    requires i < |s|
    ensures IsLetter(Title(s)[i]) <==> IsLetter(s[i])
    ensures !IsLetter(s[i]) ==> Title(s)[i] == s[i]
    ensures Lower(Title(s)[i]) == Lower(s[i])
  {
    TitleAt(s, i);
  }

  /** Applying `str.title` twice gives the same text as applying it once. */
  lemma TitleIdempotent(s: string)
    ensures Title(Title(s)) == Title(s)
  {
    var t := Title(s);
    forall i | 0 <= i < |s|
      ensures Title(t)[i] == t[i]
    {
      TitleAt(t, i);
      TitleAt(s, i);
      if i > 0 {
        TitleKeepsShape(s, i - 1);
      }
    }
  }

  /** `p` occurs in `s` starting at index `i`. */
  predicate OccursAt(s: string, p: string, i: int) {
    0 <= i <= |s| - |p| && s[i..i + |p|] == p
  }

  /** Whether `p` occurs in `s` as a contiguous substring (pandas `str.contains` on a plain pattern). */
  function Contains(s: string, p: string): (b: bool)
    ensures b <==> exists i :: OccursAt(s, p, i)
    decreases |s|
  {
    if |p| > |s| then false
    else if s[..|p|] == p then assert OccursAt(s, p, 0); true
    else
      var rest := Contains(s[1..], p);
      assert rest ==> exists i :: OccursAt(s, p, i) by {
        if rest {
          var j :| OccursAt(s[1..], p, j);
          assert s[j + 1..j + 1 + |p|] == s[1..][j..j + |p|];
          assert OccursAt(s, p, j + 1);
        }
      }
      assert (exists i :: OccursAt(s, p, i)) ==> rest by {
        if i :| OccursAt(s, p, i) {
          assert i != 0;
          assert s[1..][i - 1..i - 1 + |p|] == s[i..i + |p|];
          assert OccursAt(s[1..], p, i - 1);
        }
      }
      rest
  }

  function DigitChar(d: nat): (c: char)
    requires d < 10
    ensures IsDigit(c)
  {
    ('0' as int + d) as char
  }

  function DigitValue(c: char): nat
    requires IsDigit(c)
  {
    c as int - '0' as int
  }

  /** The decimal numeral of `n`, without leading zeros. */
  function Decimal(n: nat): (r: string)
    ensures 1 <= |r| && forall i :: 0 <= i < |r| ==> IsDigit(r[i])
    ensures n < 10 <==> |r| == 1
  {
    if n < 10 then [DigitChar(n)] else Decimal(n / 10) + [DigitChar(n % 10)]
  }

  /** The number a run of digits spells. */
  function NumeralValue(s: string): nat
    requires forall i :: 0 <= i < |s| ==> IsDigit(s[i])
  {
    if s == [] then 0 else 10 * NumeralValue(s[..|s| - 1]) + DigitValue(s[|s| - 1])
  }

  /** The numeral of `n` spells `n` and has no leading zero. */
  lemma {:induction false} DecimalValue(n: nat)
    ensures NumeralValue(Decimal(n)) == n
    ensures |Decimal(n)| > 1 ==> Decimal(n)[0] != '0'
  {
    if n >= 10 {
      DecimalValue(n / 10);
      var s := Decimal(n);
      assert s[..|s| - 1] == Decimal(n / 10);
    }
  }

  /** Python's `f"{n:02d}"`: at least two characters, zero-padded after the sign. */
  function Pad2(n: int): (r: string)
    ensures |r| >= 2
    ensures 0 <= n < 100 ==> |r| == 2 && r[0] == DigitChar(n / 10) && r[1] == DigitChar(n % 10)
    ensures n < 0 <==> r[0] == '-'
  {
    if n < 0 then "-" + Decimal(-n)
    else if n < 10 then "0" + Decimal(n)
    else
      assert n < 100 ==> Decimal(n) == Decimal(n / 10) + [DigitChar(n % 10)] && Decimal(n / 10) == [DigitChar(n / 10)];
      Decimal(n)
  }

  /**
   * What `f"{n:02d}"` spells for every integer: the sign if negative, then digits spelling the
   * absolute value, padded with zeros to a width of two and otherwise without leading zeros.
   */
  lemma Pad2Spells(n: int)
    ensures var r := Pad2(n);
      n >= 0 ==> (forall i :: 0 <= i < |r| ==> IsDigit(r[i])) && NumeralValue(r) == n && (|r| == 2 || r[0] != '0')
    ensures var r := Pad2(n);
      n < 0 ==> (forall i :: 1 <= i < |r| ==> IsDigit(r[i])) && NumeralValue(r[1..]) == -n && r[1] != '0'
  {
    if n < 0 {
      Pad2Negative(n);
    } else {
      Pad2NonNegative(n);
    }
  }

  lemma Pad2Negative(n: int)
    requires n < 0
    ensures var r := Pad2(n);
      (forall i :: 1 <= i < |r| ==> IsDigit(r[i])) && NumeralValue(r[1..]) == -n && r[1] != '0'
  {
    assert Pad2(n) == "-" + Decimal(-n);
    SignedNumeral(-n);
  }

  lemma Pad2NonNegative(n: int)
    requires n >= 0
    ensures var r := Pad2(n);
      (forall i :: 0 <= i < |r| ==> IsDigit(r[i])) && NumeralValue(r) == n && (|r| == 2 || r[0] != '0')
  {
    if n < 10 {
      assert Pad2(n) == "0" + Decimal(n);
      PaddedDigit(n);
    } else {
      assert Pad2(n) == Decimal(n);
      DecimalValue(n);
    }
  }

  lemma SignedNumeral(m: nat)
    requires m > 0
    ensures var r := "-" + Decimal(m);
      (forall i :: 1 <= i < |r| ==> IsDigit(r[i])) && NumeralValue(r[1..]) == m && r[1] != '0'
  {
    DecimalValue(m);
    assert ("-" + Decimal(m))[1..] == Decimal(m);
    if |Decimal(m)| == 1 {
      assert Decimal(m) == [DigitChar(m)];
    }
  }

  lemma PaddedDigit(n: nat)
    requires n < 10
    ensures var r := "0" + Decimal(n);
      (forall i :: 0 <= i < |r| ==> IsDigit(r[i])) && NumeralValue(r) == n && |r| == 2
  {
    var r := "0" + Decimal(n);
    assert r == ['0', DigitChar(n)];
    assert r[..1] == "0";
    assert NumeralValue("0") == 0 && DigitValue(DigitChar(n)) == n;
  }
}
