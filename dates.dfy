/** Dates in the report header. The report gives its date range as
    "DD Mon YYYY - DD Mon YYYY"; the output file name uses
    "DD-MM-YYYY to DD-MM-YYYY". Reading a date follows strptime with the
    format "%d %b %Y" in the C locale, writing one follows strftime with
    "%d-%m-%Y". */
module Dates {
  import opened Wrappers
  import opened Text

  datatype Date = Date(day: nat, month: nat, year: nat)

  predicate IsLeapYear(year: nat) {
    year % 4 == 0 && (year % 100 != 0 || year % 400 == 0)
  }

  /** The length of a month of the proleptic Gregorian calendar. */
  function DaysInMonth(month: nat, year: nat): (n: nat)
    requires 1 <= month <= 12
    ensures 28 <= n <= 31
  {
    if month == 2 then (if IsLeapYear(year) then 29 else 28)
    else if month == 4 || month == 6 || month == 9 || month == 11 then 30
    else 31
  }

  /** A date the datetime type can hold. */
  predicate ValidDate(d: Date) {
    && 1 <= d.year <= 9999
    && 1 <= d.month <= 12
    && 1 <= d.day <= DaysInMonth(d.month, d.year)
  }

  /** The month abbreviations strptime's %b accepts, lower-cased. */
  const MonthKeys: seq<string> :=
    ["jan", "feb", "mar", "apr", "may", "jun", "jul", "aug", "sep", "oct", "nov", "dec"]

  /** The month abbreviations as the report writes them. */
  const MonthNames: seq<string> :=
    ["Jan", "Feb", "Mar", "Apr", "May", "Jun", "Jul", "Aug", "Sep", "Oct", "Nov", "Dec"]

  function LowerChar(c: char): char {
    if 'A' <= c <= 'Z' then (c as int - 'A' as int + 'a' as int) as char else c
  }

  function Lower(s: string): (r: string)
    ensures |r| == |s|
    ensures forall i :: 0 <= i < |s| ==> r[i] == LowerChar(s[i])
  {
    if s == [] then [] else [LowerChar(s[0])] + Lower(s[1..])
  }

  /** The number (1 to 12) of the month a token names, in any letter case. */
  function MonthNumber(m: string): (r: Option<nat>)
    ensures r.Some? ==> 1 <= r.value <= 12 && Lower(m) == MonthKeys[r.value - 1]
    ensures r.None? ==> Lower(m) !in MonthKeys
  {
    MonthFrom(Lower(m), 0)
  }

  function MonthFrom(key: string, i: nat): (r: Option<nat>)
    requires i <= 12
    ensures r.Some? ==> i < r.value <= 12 && key == MonthKeys[r.value - 1]
    ensures r.None? ==> forall j :: i <= j < 12 ==> key != MonthKeys[j]
    decreases 12 - i
  {
    if i == 12 then None
    else if key == MonthKeys[i] then Some(i + 1)
    else MonthFrom(key, i + 1)
  }

  /** The %d field: one or two digits with a value from 1 to 31. */
  function DayField(t: string): (r: Option<nat>)
    ensures r.Some? <==> 1 <= |t| <= 2 && AllDigits(t) && 1 <= DecimalValue(t) <= 31
    ensures r.Some? ==> 1 <= r.value <= 31 && r.value == DecimalValue(t)
  {
    if 1 <= |t| <= 2 && AllDigits(t) && 1 <= DecimalValue(t) <= 31 then Some(DecimalValue(t)) else None
  }

  /** The %Y field: exactly four digits. */
  function YearField(t: string): (r: Option<nat>)
    ensures r.Some? <==> |t| == 4 && AllDigits(t)
    ensures r.Some? ==> r.value <= 9999 && r.value == DecimalValue(t)
  {
    if |t| == 4 && AllDigits(t) then
      DigitsBound(t);
      Some(DecimalValue(t))
    else None
  }

  function Pow10(n: nat): (p: nat)
    ensures p >= 1
  {
    if n == 0 then 1 else 10 * Pow10(n - 1)
  }

  lemma {:induction false} DigitsBound(t: string)
    requires AllDigits(t)
    ensures DecimalValue(t) < Pow10(|t|)
  {
    if t != [] {
      DigitsBound(t[..|t| - 1]);
    }
  }

  /** strptime(s.strip(), "%d %b %Y"): the text is a day, a month
      abbreviation and a four-digit year separated by whitespace, and the
      three make a real date; anything else is a ValueError, here None.
      Splitting on whitespace drops surrounding whitespace, so the strip is
      part of Split. */
  function ParseDate(s: string): (r: Option<Date>)
    ensures r.Some? ==> ValidDate(r.value)
    ensures var t := Split(s);
            r.Some? <==> && |t| == 3
                         && DayField(t[0]).Some? && MonthNumber(t[1]).Some? && YearField(t[2]).Some?
                         && ValidDate(Date(DecimalValue(t[0]), MonthNumber(t[1]).value, DecimalValue(t[2])))
    ensures var t := Split(s);
            r.Some? ==> && r.value.day == DecimalValue(t[0])
                        && Lower(t[1]) == MonthKeys[r.value.month - 1]
                        && r.value.year == DecimalValue(t[2])
  {
    var t := Split(s);
    if |t| != 3 then None
    else
      match (DayField(t[0]), MonthNumber(t[1]), YearField(t[2]))
      case (Some(day), Some(month), Some(year)) =>
        var d := Date(day, month, year);
        if ValidDate(d) then Some(d) else None
      case _ => None
  }

  function DigitChar(n: nat): (c: char)
    requires n < 10
    ensures IsDigit(c)
  {
    ('0' as int + n) as char
  }

  /** n written with exactly width digits, zero-padded on the left. */
  function PadDigits(n: nat, width: nat): (r: string)
    ensures |r| == width
    ensures AllDigits(r)
  {
    if width == 0 then [] else PadDigits(n / 10, width - 1) + [DigitChar(n % 10)]
  }

  /** Padding loses nothing when the number fits the width. */
  lemma {:induction false} PadDigitsValue(n: nat, width: nat)
    requires n < Pow10(width)
    ensures DecimalValue(PadDigits(n, width)) == n
  {
    if width > 0 {
      var r := PadDigits(n, width);
      PadDigitsValue(n / 10, width - 1);
      assert r[..|r| - 1] == PadDigits(n / 10, width - 1);
    }
  }

  /** strftime(d, "%d-%m-%Y"): two-digit day, two-digit month and
      four-digit year, dash-separated. */
  function FormatDate(d: Date): (r: string)
    requires ValidDate(d)
    ensures |r| == 10 && r[2] == '-' && r[5] == '-'
  {
    PadDigits(d.day, 2) + "-" + PadDigits(d.month, 2) + "-" + PadDigits(d.year, 4)
  }

  /** The formatted date can be read back: ten characters, dashes at
      positions 2 and 5, and digit fields holding the day, the month and
      the year. */
  lemma FormatDateReadBack(d: Date)
    requires ValidDate(d)
    ensures var r := FormatDate(d);
            && |r| == 10 && r[2] == '-' && r[5] == '-'
            && AllDigits(r[..2]) && AllDigits(r[3..5]) && AllDigits(r[6..])
            && DecimalValue(r[..2]) == d.day
            && DecimalValue(r[3..5]) == d.month
            && DecimalValue(r[6..]) == d.year
  {
    var r := FormatDate(d);
    assert r[..2] == PadDigits(d.day, 2);
    assert r[3..5] == PadDigits(d.month, 2);
    assert r[6..] == PadDigits(d.year, 4);
    PadDigitsValue(d.day, 2);
    PadDigitsValue(d.month, 2);
    PadDigitsValue(d.year, 4);
  }

  /** A date as the report writes it: "DD Mon YYYY". */
  function RenderDate(d: Date): (r: string)
    requires ValidDate(d)
  {
    PadDigits(d.day, 2) + " " + MonthNames[d.month - 1] + " " + PadDigits(d.year, 4)
  }

  /** No two months share a key. */
  lemma MonthKeysDistinct()
    ensures forall i, j :: 0 <= i < 12 && 0 <= j < 12 && MonthKeys[i] == MonthKeys[j] ==> i == j
  {
    forall i, j | 0 <= i < 12 && 0 <= j < 12 && i != j ensures MonthKeys[i] != MonthKeys[j] {
      assert MonthKeys[i][0] != MonthKeys[j][0] || MonthKeys[i][1] != MonthKeys[j][1]
             || MonthKeys[i][2] != MonthKeys[j][2];
    }
  }

  /** Lower-casing a month name the report writes gives its key. */
  lemma LowerMonthName(m: nat)
    requires 1 <= m <= 12
    ensures Lower(MonthNames[m - 1]) == MonthKeys[m - 1]
  {
    var name := MonthNames[m - 1];
    var key := MonthKeys[m - 1];
    assert |name| == 3 && |key| == 3;
    forall k | 0 <= k < 3 ensures Lower(name)[k] == key[k] {
      assert Lower(name)[k] == LowerChar(name[k]);
    }
  }

  /** The report's month names are read back as their own months. */
  lemma MonthNameKey(m: nat)
    requires 1 <= m <= 12
    ensures MonthNumber(MonthNames[m - 1]) == Some(m)
  {
    LowerMonthName(m);
    MonthKeysDistinct();
    assert MonthKeys[m - 1] in MonthKeys;
  }

  lemma DigitsAreTokens(t: string)
    requires |t| > 0 && AllDigits(t)
    ensures IsToken(t) && '-' !in t
  {
    forall i | 0 <= i < |t| ensures !IsSpace(t[i]) && t[i] != '-' {
      assert IsDigit(t[i]);
    }
  }

  lemma DayFieldOfPadded(n: nat)
    requires 1 <= n <= 31
    ensures DayField(PadDigits(n, 2)) == Some(n)
  {
    PadDigitsValue(n, 2);
  }

  lemma YearFieldOfPadded(n: nat)
    requires n <= 9999
    ensures YearField(PadDigits(n, 4)) == Some(n)
  {
    PadDigitsValue(n, 4);
  }

  /** A rendered date splits into its day, month and year fields. */
  lemma SplitRenderDate(d: Date)
    requires ValidDate(d)
    ensures Split(RenderDate(d)) == [PadDigits(d.day, 2), MonthNames[d.month - 1], PadDigits(d.year, 4)]
  {
    var day := PadDigits(d.day, 2);
    var year := PadDigits(d.year, 4);
    var month := MonthNames[d.month - 1];
    DigitsAreTokens(day);
    DigitsAreTokens(year);
    assert IsToken(month);
    JoinWordsTriple(day, month, year);
    SplitJoinWords([day, month, year]);
  }

  /** Reading back a date the report wrote gives the same date. */
  lemma ParseRenderDate(d: Date)
    requires ValidDate(d)
    ensures ParseDate(RenderDate(d)) == Some(d)
  {
    SplitRenderDate(d);
    DayFieldOfPadded(d.day);
    MonthNameKey(d.month);
    YearFieldOfPadded(d.year);
  }

  /** format_date_range: a text that splits on " - " into exactly two
      dates is rewritten as "DD-MM-YYYY to DD-MM-YYYY"; any other text,
      and any text where either date fails to parse, is returned as it
      was. */
  function FormatDateRange(s: string): (r: string)
    ensures var parts := SplitOn(s, " - ");
            if |parts| == 2 && ParseDate(parts[0]).Some? && ParseDate(parts[1]).Some?
            then r == FormatDate(ParseDate(parts[0]).value) + " to " + FormatDate(ParseDate(parts[1]).value)
            else r == s
  {
    var parts := SplitOn(s, " - ");
    if |parts| != 2 then s
    else
      match ParseDate(parts[0])
      case None => s
      case Some(first) =>
        match ParseDate(parts[1])
        case None => s
        case Some(last) => FormatDate(first) + " to " + FormatDate(last)
  }

  /** A rendered date has no dash in it. */
  lemma RenderDateNoDash(d: Date)
    requires ValidDate(d)
    ensures '-' !in RenderDate(d)
  {
    DigitsAreTokens(PadDigits(d.day, 2));
    DigitsAreTokens(PadDigits(d.year, 4));
    assert '-' !in MonthNames[d.month - 1];
  }

  /** No " - " occurs in x + " - " + y before the one that follows x,
      when x has no dash. */
  lemma FirstSeparator(x: string, y: string)
    requires '-' !in x
    ensures forall k: nat :: k < |x| ==> !OccursAt(x + " - " + y, " - ", k)
  {
    var s := x + " - " + y;
    forall k: nat | k < |x| ensures !OccursAt(s, " - ", k) {
      assert s[k + 1] != '-' by {
        if k + 1 < |x| {
          assert s[k + 1] == x[k + 1];
        } else {
          assert s[k + 1] == ' ';
        }
      }
      if k + 3 <= |s| {
        assert s[k..k + 3][1] == s[k + 1];
      }
    }
  }

  /** A text with no dash contains no " - ". */
  lemma NoDashNoSeparator(s: string)
    requires '-' !in s
    ensures !Contains(s, " - ")
  {
    forall k: nat | k <= |s| ensures !OccursAt(s, " - ", k) {
      if k + 3 <= |s| {
        assert s[k..k + 3][1] == s[k + 1];
      }
    }
  }

  /** The report's own range is rewritten date by date. */
  lemma FormatDateRangeOfRendered(a: Date, b: Date)
    requires ValidDate(a) && ValidDate(b)
    ensures FormatDateRange(RenderDate(a) + " - " + RenderDate(b))
            == FormatDate(a) + " to " + FormatDate(b)
  {
    var x := RenderDate(a);
    var y := RenderDate(b);
    RenderDateNoDash(a);
    RenderDateNoDash(b);
    FirstSeparator(x, y);
    SplitOnFirstPiece(x, " - ", y);
    NoDashNoSeparator(y);
    SplitOnAbsent(y, " - ");
    ParseRenderDate(a);
    ParseRenderDate(b);
  }

  /** A text without " - " is returned unchanged. */
  lemma FormatDateRangeWithoutSeparator(s: string)
    requires !Contains(s, " - ")
    ensures FormatDateRange(s) == s
  {
    SplitOnAbsent(s, " - ");
  }

  /** The formatted range contains no " - ". */
  lemma FormatDateShape(d: Date)
    requires ValidDate(d)
    ensures ' ' !in FormatDate(d) && IsDigit(FormatDate(d)[0])
  {
    var day := PadDigits(d.day, 2);
    var month := PadDigits(d.month, 2);
    var year := PadDigits(d.year, 4);
    forall t | t in [day, month, year] ensures ' ' !in t {
      forall i | 0 <= i < |t| ensures t[i] != ' ' { assert IsDigit(t[i]); }
    }
    assert IsDigit(day[0]);
  }

  lemma FormattedRangeNoSeparator(a: Date, b: Date)
    requires ValidDate(a) && ValidDate(b)
    ensures !Contains(FormatDate(a) + " to " + FormatDate(b), " - ")
  {
    var fa := FormatDate(a);
    var fb := FormatDate(b);
    var r := fa + " to " + fb;
    FormatDateShape(a);
    FormatDateShape(b);
    assert |fa| == 10;
    forall k: nat | k <= |r| ensures !OccursAt(r, " - ", k) {
      if k + 3 <= |r| {
        assert r[k..k + 3][0] == r[k];
        assert r[k..k + 3][1] == r[k + 1];
        if k < 10 {
          assert r[k] == fa[k];
        } else if k == 10 {
          assert r[k + 1] == 't';
        } else if k < 13 {
          assert r[k] == " to "[k - 10];
        } else if k == 13 {
          assert r[k + 1] == fb[0];
        } else {
          assert r[k] == fb[k - 14];
        }
      }
    }
  }

  /** format_date_range changes its argument exactly when the argument
      splits on " - " into two pieces that both parse as dates. */
  lemma FormatDateRangeChanges(s: string)
    ensures var parts := SplitOn(s, " - ");
            FormatDateRange(s) != s
            <==> |parts| == 2 && ParseDate(parts[0]).Some? && ParseDate(parts[1]).Some?
  {
    var parts := SplitOn(s, " - ");
    if |parts| == 2 && ParseDate(parts[0]).Some? && ParseDate(parts[1]).Some? {
      var a := ParseDate(parts[0]).value;
      var b := ParseDate(parts[1]).value;
      JoinTwo(parts, " - ");
      assert OccursAt(s, " - ", |parts[0]|) by {
        assert s[|parts[0]|..|parts[0]| + 3] == " - ";
      }
      FormattedRangeNoSeparator(a, b);
    }
  }
}
