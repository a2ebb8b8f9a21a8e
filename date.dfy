/**
 * The calendar Date of the object-oriented practice problem
 * (inclass/oop_practice/solutions/problem1_sol.py).
 *
 * A Date holds a month, a day and a year as plain integers and does not
 * check that they form a real date.  It can compare itself with another
 * date, print itself as "March, 26th 2015", move itself one year ahead and
 * tell whether its year is a leap year.  The text form is given a parser,
 * ParseDate, and the printed text of every date with a valid month is proved
 * to parse back to that date.
 */
module Dates {
  import opened Wrappers

  /* ---------------------------------------------------------------------
     Decimal text of integers, as "%i" prints them
     --------------------------------------------------------------------- */

  predicate IsDigit(c: char) {
    '0' <= c <= '9'
  }

  predicate AllDigits(s: string) {
    forall i :: 0 <= i < |s| ==> IsDigit(s[i])
  }

  function DigitChar(d: nat): (c: char)
    requires d < 10
    ensures IsDigit(c) && c as int - '0' as int == d
  {
    ('0' as int + d) as char
  }

  /** Decimal digits of a natural number, most significant first, without
      leading zeros. */
  function NatToString(n: nat): (s: string)
    ensures |s| >= 1 && AllDigits(s)
    decreases n
  {
    if n < 10 then [DigitChar(n)] else NatToString(n / 10) + [DigitChar(n % 10)]
  }

  /** The value of a string of decimal digits. */
  function ParseNat(s: string): nat
    requires AllDigits(s)
  {
    if s == [] then 0 else 10 * ParseNat(s[..|s| - 1]) + (s[|s| - 1] as int - '0' as int)
  }

  lemma {:induction false} ParseNatToString(n: nat)
    ensures ParseNat(NatToString(n)) == n
    decreases n
  {
    if n >= 10 {
      var s := NatToString(n);
      assert s[..|s| - 1] == NatToString(n / 10);
      ParseNatToString(n / 10);
    }
  }

  /** "%i": an optional minus sign followed by the digits of the magnitude. */
  function IntToString(n: int): (s: string)
    ensures |s| >= 1
    ensures (s[0] == '-') <==> n < 0
    ensures AllDigits(if n < 0 then s[1..] else s)
  {
    if n < 0 then "-" + NatToString(-n) else NatToString(n)
  }

  /** The integer written by an optional minus sign and at least one digit. */
  function ParseInt(s: string): (r: Option<int>)
    ensures r.Some? ==> |s| >= 1
  {
    if |s| >= 2 && s[0] == '-' && AllDigits(s[1..]) then Some(-(ParseNat(s[1..]) as int))
    else if |s| >= 1 && AllDigits(s) then Some(ParseNat(s))
    else None
  }

  /** A minus sign followed by digits reads as the negated value. */
  lemma ParseIntNegative(digits: string)
    requires |digits| >= 1 && AllDigits(digits)
    ensures ParseInt("-" + digits) == Some(-(ParseNat(digits) as int))
  {
    assert ("-" + digits)[1..] == digits;
  }

  /** Digits alone read as their value. */
  lemma ParseIntDigits(digits: string)
    requires |digits| >= 1 && AllDigits(digits)
    ensures ParseInt(digits) == Some(ParseNat(digits) as int)
  {
  }

  lemma IntToStringRoundTrip(n: int)
    ensures ParseInt(IntToString(n)) == Some(n)
  {
    if n < 0 {
      NegativeRoundTrip(n);
    } else {
      NonNegativeRoundTrip(n);
    }
  }

  lemma NegativeRoundTrip(n: int)
    requires n < 0
    ensures ParseInt(IntToString(n)) == Some(n)
  {
    var d := NatToString(-n);
    assert ParseInt("-" + d) == Some(n) by {
      ParseNatToString(-n);
      ParseIntNegative(d);
    }
    assert IntToString(n) == "-" + d;
  }

  lemma NonNegativeRoundTrip(m: nat)
    ensures ParseInt(IntToString(m)) == Some(m)
  {
    ParseNatToString(m);
    ParseIntDigits(NatToString(m));
  }

  /* ---------------------------------------------------------------------
     Month names and ordinal suffixes
     --------------------------------------------------------------------- */

  /** month_map: the English name of months 1 to 12. */
  function MonthName(m: int): (name: string)
    requires 1 <= m <= 12
    ensures |name| >= 3
    ensures forall i :: 0 <= i < |name| ==> name[i] != ','
  {
    if m == 1 then "January"
    else if m == 2 then "February"
    else if m == 3 then "March"
    else if m == 4 then "April"
    else if m == 5 then "May"
    else if m == 6 then "June"
    else if m == 7 then "July"
    else if m == 8 then "August"
    else if m == 9 then "September"
    else if m == 10 then "October"
    else if m == 11 then "November"
    else "December"
  }

  /** The month a name stands for, the inverse of month_map. */
  function MonthNumber(name: string): (r: Option<int>)
    ensures r.Some? ==> 1 <= r.value <= 12 && MonthName(r.value) == name
  {
    if name == "January" then Some(1)
    else if name == "February" then Some(2)
    else if name == "March" then Some(3)
    else if name == "April" then Some(4)
    else if name == "May" then Some(5)
    else if name == "June" then Some(6)
    else if name == "July" then Some(7)
    else if name == "August" then Some(8)
    else if name == "September" then Some(9)
    else if name == "October" then Some(10)
    else if name == "November" then Some(11)
    else if name == "December" then Some(12)
    else None
  }

  lemma MonthNumberOfName(m: int)
    requires 1 <= m <= 12
    ensures MonthNumber(MonthName(m)) == Some(m)
  {
  }

  /** last_digit_suffix: the suffix chosen by the last decimal digit of the
      day alone, so 11, 12 and 13 get "st", "nd" and "rd". */
  function OrdinalSuffix(lastDigit: int): (s: string)
    requires 0 <= lastDigit <= 9
    ensures |s| == 2 && s[0] != ' ' && s[1] != ' '
    ensures s != "th" <==> 1 <= lastDigit <= 3
  {
    if lastDigit == 1 then "st"
    else if lastDigit == 2 then "nd"
    else if lastDigit == 3 then "rd"
    else "th"
  }

  /** Index of the first occurrence of c in s, or |s| when there is none. */
  function IndexOf(s: string, c: char): (k: nat)
    ensures k <= |s|
    ensures forall i :: 0 <= i < k ==> s[i] != c
    ensures k < |s| ==> s[k] == c
  {
    if s == [] then 0
    else if s[0] == c then 0
    else 1 + IndexOf(s[1..], c)
  }

  /** The first c of prefix + rest is the head of rest when prefix has none. */
  lemma IndexOfAfter(prefix: string, c: char, rest: string)
    requires forall i :: 0 <= i < |prefix| ==> prefix[i] != c
    requires rest != [] && rest[0] == c
    ensures IndexOf(prefix + rest, c) == |prefix|
  {
    var k := IndexOf(prefix + rest, c);
    assert (prefix + rest)[|prefix|] == c;
  }

  /** Reads back "<day><suffix> <year>": the text before the first blank is
      the day followed by a two-letter suffix, the text after it the year. */
  function ParseDayYear(rest: string): Option<(int, int)>
  {
    var j := IndexOf(rest, ' ');
    if j < 2 || j == |rest| then None
    else match (ParseInt(rest[..j - 2]), ParseInt(rest[j + 1..]))
      case (Some(d), Some(y)) => Some((d, y))
      case _ => None
  }

  /** Reads back the text "Month, <day><suffix> <year>": the month name up to
      the first comma, then ", " and the day and year. */
  function ParseDate(s: string): Option<(int, int, int)>
  {
    var k := IndexOf(s, ',');
    if k + 2 > |s| || s[k..k + 2] != ", " then None
    else match (MonthNumber(s[..k]), ParseDayYear(s[k + 2..]))
      case (Some(m), Some((d, y))) => Some((m, d, y))
      case _ => None
  }

  /** No decimal text of an integer holds a blank. */
  lemma IntToStringHasNoBlank(n: int)
    ensures forall i :: 0 <= i < |IntToString(n)| ==> IntToString(n)[i] != ' '
  {
    var s := IntToString(n);
    forall i | 0 <= i < |s|
      ensures s[i] != ' '
    {
      if n < 0 && i > 0 {
        assert s[i] == s[1..][i - 1];
      }
    }
  }

  /** Cutting "<day><suffix> <year>" at its first blank, when the day and
      the suffix have none. */
  lemma SplitAtBlank(dayText: string, suffix: string, yearText: string)
    requires forall i :: 0 <= i < |dayText| ==> dayText[i] != ' '
    requires |suffix| == 2 && suffix[0] != ' ' && suffix[1] != ' '
    ensures var rest := dayText + suffix + " " + yearText;
      && IndexOf(rest, ' ') == |dayText| + 2
      && rest[..|dayText|] == dayText && rest[|dayText| + 3..] == yearText
  {
    var head := dayText + suffix;
    var rest := head + " " + yearText;
    assert rest == head + (" " + yearText);
    IndexOfAfter(head, ' ', " " + yearText);
  }

  lemma DayYearOf(dayText: string, suffix: string, yearText: string, day: int, year: int)
    requires forall i :: 0 <= i < |dayText| ==> dayText[i] != ' '
    requires |suffix| == 2 && suffix[0] != ' ' && suffix[1] != ' '
    requires ParseInt(dayText) == Some(day) && ParseInt(yearText) == Some(year)
    ensures ParseDayYear(dayText + suffix + " " + yearText) == Some((day, year))
  {
    SplitAtBlank(dayText, suffix, yearText);
  }

  /** Cutting "<name>, <rest>" at its first comma, when name has none. */
  lemma SplitAtComma(name: string, rest: string)
    requires forall i :: 0 <= i < |name| ==> name[i] != ','
    ensures var s := name + ", " + rest;
      && IndexOf(s, ',') == |name| && |name| + 2 <= |s|
      && s[..|name|] == name && s[|name|..|name| + 2] == ", " && s[|name| + 2..] == rest
  {
    var s := name + ", " + rest;
    assert s == name + (", " + rest);
    IndexOfAfter(name, ',', ", " + rest);
  }

  lemma ParseDateOf(name: string, rest: string, month: int, day: int, year: int)
    requires forall i :: 0 <= i < |name| ==> name[i] != ','
    requires MonthNumber(name) == Some(month)
    requires ParseDayYear(rest) == Some((day, year))
    ensures ParseDate(name + ", " + rest) == Some((month, day, year))
  {
    SplitAtComma(name, rest);
  }

  /** A concatenation starts with its first part. */
  lemma PrefixOfConcat(a: string, b: string)
    ensures (a + b)[..|a|] == a
  {
  }

  /** The text __str__ prints: "Month, <day><suffix> <year>", the suffix
      chosen by the last digit of the day. */
  function Text(month: int, day: int, year: int): (s: string)
    requires 1 <= month <= 12
    // "Month, " first, then the two numbers, the suffix and one blank
    ensures |s| == |MonthName(month)| + |IntToString(day)| + |IntToString(year)| + 5
    ensures s[..|MonthName(month)| + 2] == MonthName(month) + ", "
  {
    var head := MonthName(month) + ", ";
    var rest := IntToString(day) + OrdinalSuffix(day % 10) + " " + IntToString(year);
    PrefixOfConcat(head, rest);
    head + rest
  }

  /** The pieces of a printed date, put together, read back as the date. */
  lemma PiecesRoundTrip(month: int, day: int, year: int)
    requires 1 <= month <= 12
    ensures ParseDate(MonthName(month) + ", "
                      + (IntToString(day) + OrdinalSuffix(day % 10) + " " + IntToString(year)))
         == Some((month, day, year))
  {
    var name, suffix := MonthName(month), OrdinalSuffix(day % 10);
    var dayText, yearText := IntToString(day), IntToString(year);
    var rest := dayText + suffix + " " + yearText;
    MonthNumberOfName(month);
    IntToStringRoundTrip(day);
    IntToStringRoundTrip(year);
    IntToStringHasNoBlank(day);
    DayYearOf(dayText, suffix, yearText, day, year);
    ParseDateOf(name, rest, month, day, year);
  }

  /** The printed text of every date with a valid month reads back as that date. */
  lemma FormatRoundTrip(month: int, day: int, year: int)
    requires 1 <= month <= 12
    ensures ParseDate(Text(month, day, year)) == Some((month, day, year))
  {
    PiecesRoundTrip(month, day, year);
  }

  /** Texts of dates are equal only for equal dates. */
  lemma TextInjective(m1: int, d1: int, y1: int, m2: int, d2: int, y2: int)
    requires 1 <= m1 <= 12 && 1 <= m2 <= 12
    requires Text(m1, d1, y1) == Text(m2, d2, y2)
    ensures m1 == m2 && d1 == d2 && y1 == y2
  {
    FormatRoundTrip(m1, d1, y1);
    FormatRoundTrip(m2, d2, y2);
  }

  /* ---------------------------------------------------------------------
     The Date object
     --------------------------------------------------------------------- */

  class Date {
    var month: int
    var day: int
    var year: int

    /** No validation: any three integers make a Date. */
    constructor (month: int, day: int, year: int)
      ensures this.month == month && this.day == day && this.year == year
    {
      this.month := month;
      this.day := day;
      this.year := year;
    }

    /** is_before as written: true as soon as ANY of year, month or day is
        smaller, checked in that order.  This is not the calendar order: a
        smaller month wins even against a larger year. */
    predicate IsBefore(other: Date): (r: bool)
      reads this, other
      ensures year < other.year ==> r
      ensures month < other.month ==> r
      ensures r <==> year < other.year || month < other.month || day < other.day
    {
      if year < other.year then true
      else if month < other.month then true
      else day < other.day
    }

    /** The calendar order the docstring of is_before promises: year first,
        then month, then day. */
    predicate OccursBefore(other: Date): (r: bool)
      reads this, other
      ensures r ==> year <= other.year
      ensures year < other.year ==> r
      ensures r ==> IsBefore(other)
    {
      year < other.year
      || (year == other.year && (month < other.month || (month == other.month && day < other.day)))
    }

    /** __str__: the text reads back as this date. */
    function ToString(): (s: string)
      reads this
      requires 1 <= month <= 12
      ensures ParseDate(s) == Some((month, day, year))
    {
      FormatRoundTrip(month, day, year);
      Text(month, day, year)
    }

    /** increment_year: the same month and day of the following year. */
    method IncrementYear()
      modifies this
      ensures year == old(year) + 1
      ensures month == old(month) && day == old(day)
      ensures old(IsLeapYear()) ==> !IsLeapYear()
    {
      year := year + 1;
    }

    /** is_leap_year: the Gregorian rule (Python's % agrees with Dafny's for
        the positive divisors used here, also for negative years). */
    predicate IsLeapYear(): (r: bool)
      reads this
      ensures r <==> year % 4 == 0 && (year % 100 != 0 || year % 400 == 0)
    {
      if year % 4 != 0 then false
      else if year % 100 != 0 then true
      else year % 400 == 0
    }
  }

  /* ---------------------------------------------------------------------
     Properties of is_before
     --------------------------------------------------------------------- */

  /** No date is before itself, nor before a date with the same fields. */
  lemma IsBeforeIrreflexive(a: Date, b: Date)
    requires a.month == b.month && a.day == b.day && a.year == b.year
    ensures !a.IsBefore(b) && !b.IsBefore(a)
  {
  }

  /** The doctest: April 20, 1981 is before May 31, 1995. */
  lemma IsBeforeExample(d1: Date, d2: Date)
    requires d1.month == 4 && d1.day == 20 && d1.year == 1981
    requires d2.month == 5 && d2.day == 31 && d2.year == 1995
    ensures d1.IsBefore(d2)
  {
  }

  /** As written, is_before is not asymmetric: January 1, 2001 and
      February 1, 2000 are each "before" the other. */
  lemma IsBeforeNotAsymmetric(a: Date, b: Date)
    requires a.month == 1 && a.day == 1 && a.year == 2001
    requires b.month == 2 && b.day == 1 && b.year == 2000
    ensures a.IsBefore(b) && b.IsBefore(a)
    ensures !a.OccursBefore(b) && b.OccursBefore(a)
  {
  }

  /** The calendar order is a strict total order on the (month, day, year)
      values: irreflexive, asymmetric, transitive and total. */
  lemma OccursBeforeIsStrictTotalOrder(a: Date, b: Date, c: Date)
    ensures !a.OccursBefore(a)
    ensures a.OccursBefore(b) ==> !b.OccursBefore(a)
    ensures a.OccursBefore(b) && b.OccursBefore(c) ==> a.OccursBefore(c)
    ensures a.OccursBefore(b) || b.OccursBefore(a)
            || (a.month == b.month && a.day == b.day && a.year == b.year)
  {
  }

  /* ---------------------------------------------------------------------
     Properties of __str__ and is_leap_year
     --------------------------------------------------------------------- */

  /** The numbers the doctests print. */
  lemma ExampleNumbers()
    ensures IntToString(26) == "26" && IntToString(2015) == "2015"
    ensures IntToString(11) == "11" && IntToString(2000) == "2000"
  {
  }

  /** The text of the doctest's date. */
  lemma TextOfDoctest()
    ensures Text(3, 26, 2015) == "March, 26th 2015"
  {
    ExampleNumbers();
    assert MonthName(3) == "March" && OrdinalSuffix(6) == "th";
    assert "26" + "th" + " " + "2015" == "26th 2015";
  }

  /** The text of the eleventh of January, 2000. */
  lemma TextOfEleventh()
    ensures Text(1, 11, 2000) == "January, 11st 2000"
  {
    ExampleNumbers();
    assert MonthName(1) == "January" && OrdinalSuffix(1) == "st";
    assert "11" + "st" + " " + "2000" == "11st 2000";
  }

  /** The doctest: Date(3, 26, 2015) prints as "March, 26th 2015". */
  lemma ToStringExample(d: Date)
    requires d.month == 3 && d.day == 26 && d.year == 2015
    ensures d.ToString() == "March, 26th 2015"
  {
    TextOfDoctest();
  }

  /** The suffix has no exception for 11 to 13: day 11 prints as "11st". */
  lemma ToStringEleventh(d: Date)
    requires d.month == 1 && d.day == 11 && d.year == 2000
    ensures d.ToString() == "January, 11st 2000"
  {
    TextOfEleventh();
  }

  /** Every printed date starts with its month's name and reads back as the
      date; so dates with equal texts have equal fields. */
  lemma ToStringRoundTrip(a: Date, b: Date)
    requires 1 <= a.month <= 12 && 1 <= b.month <= 12
    ensures a.ToString()[..|MonthName(a.month)|] == MonthName(a.month)
    ensures ParseDate(a.ToString()) == Some((a.month, a.day, a.year))
    ensures a.ToString() == b.ToString() ==> a.month == b.month && a.day == b.day && a.year == b.year
  {
    FormatRoundTrip(a.month, a.day, a.year);
    if a.ToString() == b.ToString() {
      TextInjective(a.month, a.day, a.year, b.month, b.day, b.year);
    }
  }

  /** The doctests: 2000 is a leap year, 1999 and 1900 are not. */
  lemma LeapYearExamples(a: Date, b: Date, c: Date)
    requires a.year == 2000 && b.year == 1999 && c.year == 1900
    ensures a.IsLeapYear() && !b.IsLeapYear() && !c.IsLeapYear()
  {
  }

  /** The Gregorian rule repeats every 400 years. */
  lemma LeapYearPeriod(a: Date, b: Date)
    requires b.year == a.year + 400
    ensures a.IsLeapYear() == b.IsLeapYear()
  {
    var y := a.year;
    assert b.year % 4 == y % 4 by { assert b.year == y + 4 * 100; }
    assert b.year % 100 == y % 100 by { assert b.year == y + 100 * 4; }
    assert b.year % 400 == y % 400;
  }
}
