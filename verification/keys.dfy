/** The string keys the charge module stores: week keys "yyyy-MM-dd" (the
    Monday of the week) and month keys "yyyy-MM".

    Formatting and parsing follow `DateTimeFormatter.ofPattern` with the
    default SMART resolver: the year is a year-of-era of four digits (0001 to
    9999), month and day take exactly two digits, a month outside 1..12 or a
    day outside 1..31 is an error, and a day past the end of a short month is
    clamped to its last day.  Keys are compared as strings by the repository
    queries; `LexLess` is that comparison, and for well-formed keys it agrees
    with the calendar order. */
module Keys {
  import opened Wrappers
  import opened Calendar

  predicate IsDigit(c: char) {
    '0' <= c <= '9'
  }

  predicate AllDigits(s: string) {
    forall i :: 0 <= i < |s| ==> IsDigit(s[i])
  }

  function DigitChar(d: int): (c: char)
    requires 0 <= d <= 9
    ensures IsDigit(c)
  {
    (48 + d) as char
  }

  function DigitValue(c: char): (d: int)
    requires IsDigit(c)
    ensures 0 <= d <= 9 && DigitChar(d) == c
  {
    c as int - 48
  }

  function Pow10(w: nat): (p: nat)
    ensures p >= 1
  {
    if w == 0 then 1 else 10 * Pow10(w - 1)
  }

  /** n written with exactly w decimal digits, zero-padded on the left. */
  function Pad(n: nat, w: nat): (s: string)
    requires n < Pow10(w)
    ensures |s| == w && AllDigits(s)
  {
    if w == 0 then "" else Pad(n / 10, w - 1) + [DigitChar(n % 10)]
  }

  /** The value of a string of decimal digits. */
  function ParseDigits(s: string): nat
    requires AllDigits(s)
  {
    if |s| == 0 then 0 else ParseDigits(s[..|s| - 1]) * 10 + DigitValue(s[|s| - 1])
  }

  lemma {:induction false} ParsePad(n: nat, w: nat)
    requires n < Pow10(w)
    ensures ParseDigits(Pad(n, w)) == n
    decreases w
  {
    if w > 0 {
      var s := Pad(n, w);
      assert s[..w - 1] == Pad(n / 10, w - 1);
      ParsePad(n / 10, w - 1);
    }
  }

  lemma {:induction false} PadParse(s: string)
    requires AllDigits(s)
    ensures ParseDigits(s) < Pow10(|s|)
    ensures Pad(ParseDigits(s), |s|) == s
    decreases |s|
  {
    if |s| > 0 {
      var init := s[..|s| - 1];
      PadParse(init);
      assert s == init + [s[|s| - 1]];
    }
  }

  lemma PadInjective(a: nat, b: nat, w: nat)
    requires a < Pow10(w) && b < Pow10(w)
    ensures Pad(a, w) == Pad(b, w) <==> a == b
  {
    ParsePad(a, w);
    ParsePad(b, w);
  }

  /** Lexicographic comparison of strings by code unit (`String.compareTo`
      below zero, and SQL `<` on these ASCII keys). */
  predicate LexLess(a: string, b: string)
    decreases |a|
  {
    if |a| == 0 then |b| > 0
    else if |b| == 0 then false
    else if a[0] != b[0] then a[0] < b[0]
    else LexLess(a[1..], b[1..])
  }

  lemma {:induction false} LexLessIrreflexive(a: string)
    ensures !LexLess(a, a)
    decreases |a|
  {
    if |a| > 0 {
      LexLessIrreflexive(a[1..]);
    }
  }

  lemma {:induction false} LexLessTransitive(a: string, b: string, c: string)
    requires LexLess(a, b) && LexLess(b, c)
    ensures LexLess(a, c)
    decreases |a|
  {
    if |a| > 0 && a[0] == b[0] && b[0] == c[0] {
      LexLessTransitive(a[1..], b[1..], c[1..]);
    }
  }

  /** Two different strings are ordered one way or the other. */
  lemma {:induction false} LexLessTotal(a: string, b: string)
    ensures a == b || LexLess(a, b) || LexLess(b, a)
    decreases |a|
  {
    if |a| > 0 && |b| > 0 && a[0] == b[0] {
      LexLessTotal(a[1..], b[1..]);
      if a[1..] == b[1..] {
        assert a == [a[0]] + a[1..] && b == [b[0]] + b[1..];
      }
    }
  }

  /** Comparing two concatenations whose first parts have equal length
      compares the first parts, then the second. */
  lemma {:induction false} LexConcat(s1: string, t1: string, s2: string, t2: string)
    requires |s1| == |s2|
    ensures LexLess(s1 + t1, s2 + t2) <==> LexLess(s1, s2) || (s1 == s2 && LexLess(t1, t2))
    decreases |s1|
  {
    if |s1| == 0 {
      assert s1 + t1 == t1 && s2 + t2 == t2;
    } else {
      assert (s1 + t1)[1..] == s1[1..] + t1;
      assert (s2 + t2)[1..] == s2[1..] + t2;
      LexConcat(s1[1..], t1, s2[1..], t2);
      if s1[0] == s2[0] && s1[1..] == s2[1..] {
        assert s1 == s2;
      }
      LexLessIrreflexive(s1);
    }
  }

  /** Zero-padded numbers of one width sort as their values. */
  lemma {:induction false} PadOrder(a: nat, b: nat, w: nat)
    requires a < Pow10(w) && b < Pow10(w)
    ensures LexLess(Pad(a, w), Pad(b, w)) <==> a < b
    decreases w
  {
    if w > 0 {
      PadOrder(a / 10, b / 10, w - 1);
      PadInjective(a / 10, b / 10, w - 1);
      LexConcat(Pad(a / 10, w - 1), [DigitChar(a % 10)], Pad(b / 10, w - 1), [DigitChar(b % 10)]);
      assert LexLess([DigitChar(a % 10)], [DigitChar(b % 10)]) <==> a % 10 < b % 10 by {
        if a % 10 == b % 10 {
          LexLessIrreflexive([DigitChar(a % 10)]);
        }
      }
    }
  }

  /** Years a key can carry: a four-digit year-of-era. */
  predicate InKeyRange(year: int) {
    1 <= year <= 9999
  }

  /** `getMonthKey` / `YearMonth.format("yyyy-MM")` */
  function MonthKey(ym: YearMonth): (s: string)
    requires ym.Valid() && InKeyRange(ym.year)
    ensures |s| == 7
  {
    Pad(ym.year, 4) + "-" + Pad(ym.month, 2)
  }

  /** `generateWeekKey` / `LocalDate.format("yyyy-MM-dd")` */
  function DateKey(d: Date): (s: string)
    requires d.Valid() && InKeyRange(d.year)
    ensures |s| == 10
  {
    Pad(d.year, 4) + "-" + Pad(d.month, 2) + "-" + Pad(d.day, 2)
  }

  /** Epoch days of the years 0001 to 9999, the days a key can name. */
  predicate KeyDay(e: int) {
    YearStart(1) <= e < YearStart(10000)
  }

  lemma KeyDayYear(e: int)
    ensures KeyDay(e) <==> InKeyRange(FromEpochDay(e).year)
  {
    var y := FromEpochDay(e).year;
    DateBounds(FromEpochDay(e));
    if y < 1 {
      YearStartMonotone(y, 1);
    }
    if y > 9999 {
      YearStartMonotone(9999, y);
    }
    if 1 < y {
      YearStartMonotone(1, y);
    }
    if y < 9999 {
      YearStartMonotone(y, 9999);
    }
  }

  /** The month key of an epoch day (`getMonthKey(date)`). */
  function MonthKeyOfDay(e: int): (s: string)
    requires KeyDay(e)
    ensures ParseMonthKey(s) == Some(YearMonthOf(e))
  {
    KeyDayYear(e);
    ParseMonthKeyRoundTrip(YearMonthOf(e));
    MonthKey(YearMonthOf(e))
  }

  /** The key of the day e (`generateWeekKey` when e is a Monday). */
  function DayKey(e: int): (s: string)
    requires KeyDay(e)
    ensures ParseDateKey(s).Some? && ToEpochDay(ParseDateKey(s).value) == e
  {
    KeyDayYear(e);
    ParseDateKeyRoundTrip(FromEpochDay(e));
    DateKey(FromEpochDay(e))
  }

  /** Different days have different keys, and a day key starts with the
      key of its month. */
  lemma DayKeyFacts(a: int, b: int)
    requires KeyDay(a) && KeyDay(b)
    ensures DayKey(a) == DayKey(b) <==> a == b
    ensures DayKey(a)[..7] == MonthKeyOfDay(a)
  {
    KeyDayYear(a);
    DateKeyShape(FromEpochDay(a));
  }

  /** Day keys sort chronologically. */
  lemma DayKeyOrder(a: int, b: int)
    requires KeyDay(a) && KeyDay(b)
    ensures LexLess(DayKey(a), DayKey(b)) <==> a < b
  {
    KeyDayYear(a);
    KeyDayYear(b);
    DateKeyChronological(FromEpochDay(a), FromEpochDay(b));
  }

  /** Raw year and month fields of a "yyyy-MM" prefix, before range checks. */
  predicate HasYearMonthShape(s: string) {
    |s| >= 7 && AllDigits(s[..4]) && s[4] == '-' && AllDigits(s[5..7])
  }

  /** `YearMonth.parse(s, "yyyy-MM")`; `None` is a `DateTimeParseException`. */
  function ParseMonthKey(s: string): (r: Option<YearMonth>)
    ensures r.Some? ==> r.value.Valid() && InKeyRange(r.value.year)
  {
    if |s| != 7 || !HasYearMonthShape(s) then None
    else
      var y := ParseDigits(s[..4]);
      var m := ParseDigits(s[5..7]);
      PadParse(s[..4]);
      assert Pow10(4) == 10000;
      if y < 1 || m < 1 || m > 12 then None else Some(YearMonth(y, m))
  }

  /** The day field of a "yyyy-MM-dd" string of the right shape. */
  function RawDay(s: string): nat
    requires |s| == 10 && AllDigits(s[8..10])
  {
    ParseDigits(s[8..10])
  }

  predicate HasDateShape(s: string) {
    |s| == 10 && HasYearMonthShape(s) && s[7] == '-' && AllDigits(s[8..10])
  }

  /** `LocalDate.parse(s, "yyyy-MM-dd")` with the SMART resolver: a day of
      29..31 past the end of the month resolves to the month's last day.
      `None` is a `DateTimeParseException`. */
  function ParseDateKey(s: string): (r: Option<Date>)
    ensures r.Some? ==> |s| == 10 && r.value.Valid() && InKeyRange(r.value.year)
  {
    if !HasDateShape(s) then None
    else
      var ym := ParseMonthKey(s[..7]);
      var day := RawDay(s);
      if ym.None? || day < 1 || day > 31 then None
      else
        var dim := DaysInMonth(ym.value.year, ym.value.month);
        Some(Date(ym.value.year, ym.value.month, if day <= dim then day else dim))
  }

  lemma DateKeyShape(d: Date)
    requires d.Valid() && InKeyRange(d.year)
    ensures var s := DateKey(d);
      && s[..4] == Pad(d.year, 4) && s[4] == '-' && s[5..7] == Pad(d.month, 2)
      && s[7] == '-' && s[8..10] == Pad(d.day, 2) && s[..7] == MonthKey(YearMonth(d.year, d.month))
  {
  }

  /** Parsing a formatted month key gives the month back. */
  lemma ParseMonthKeyRoundTrip(ym: YearMonth)
    requires ym.Valid() && InKeyRange(ym.year)
    ensures ParseMonthKey(MonthKey(ym)) == Some(ym)
  {
    var s := MonthKey(ym);
    assert s[..4] == Pad(ym.year, 4) && s[5..7] == Pad(ym.month, 2);
    ParsePad(ym.year, 4);
    ParsePad(ym.month, 2);
  }

  /** A month key that parses is the canonical key of its month. */
  lemma MonthKeyRoundTrip(s: string)
    requires ParseMonthKey(s).Some?
    ensures MonthKey(ParseMonthKey(s).value) == s
  {
    PadParse(s[..4]);
    PadParse(s[5..7]);
    assert s == s[..4] + "-" + s[5..7];
  }

  /** Parsing a formatted week key gives the date back. */
  lemma ParseDateKeyRoundTrip(d: Date)
    requires d.Valid() && InKeyRange(d.year)
    ensures ParseDateKey(DateKey(d)) == Some(d)
  {
    var s := DateKey(d);
    DateKeyShape(d);
    ParseMonthKeyRoundTrip(YearMonth(d.year, d.month));
    ParsePad(d.day, 2);
  }

  /** A date key that parses is canonical exactly when its day was not
      clamped by the resolver. */
  lemma DateKeyRoundTrip(s: string)
    requires ParseDateKey(s).Some?
    ensures DateKey(ParseDateKey(s).value) == s <==> RawDay(s) == ParseDateKey(s).value.day
  {
    var d := ParseDateKey(s).value;
    if RawDay(s) == d.day {
      UnclampedKeyIsCanonical(s, d);
    }
    if DateKey(d) == s {
      DateKeyShape(d);
      ParsePad(d.day, 2);
    }
  }

  lemma UnclampedKeyIsCanonical(s: string, d: Date)
    requires ParseDateKey(s) == Some(d) && RawDay(s) == d.day
    ensures DateKey(d) == s
  {
    MonthKeyRoundTrip(s[..7]);
    PadParse(s[8..10]);
    DateKeyShape(d);
    assert s == s[..7] + "-" + s[8..10];
  }

  /** Two month keys of the same shape compare as their months. */
  lemma MonthKeyOrder(a: YearMonth, b: YearMonth)
    requires a.Valid() && InKeyRange(a.year) && b.Valid() && InKeyRange(b.year)
    ensures LexLess(MonthKey(a), MonthKey(b)) <==>
      a.year < b.year || (a.year == b.year && a.month < b.month)
  {
    PadOrder(a.year, b.year, 4);
    PadOrder(a.month, b.month, 2);
    PadInjective(a.year, b.year, 4);
    LexConcat(Pad(a.year, 4), "-" + Pad(a.month, 2), Pad(b.year, 4), "-" + Pad(b.month, 2));
    LexConcat("-", Pad(a.month, 2), "-", Pad(b.month, 2));
    LexLessIrreflexive("-");
    assert MonthKey(a) == Pad(a.year, 4) + ("-" + Pad(a.month, 2));
    assert MonthKey(b) == Pad(b.year, 4) + ("-" + Pad(b.month, 2));
  }

  /** Two date keys compare as their (year, month, day) triples. */
  lemma DateKeyOrder(a: Date, b: Date)
    requires a.Valid() && InKeyRange(a.year) && b.Valid() && InKeyRange(b.year)
    ensures LexLess(DateKey(a), DateKey(b)) <==>
      a.year < b.year || (a.year == b.year && (a.month < b.month || (a.month == b.month && a.day < b.day)))
  {
    var ma := MonthKey(YearMonth(a.year, a.month));
    var mb := MonthKey(YearMonth(b.year, b.month));
    MonthKeyOrder(YearMonth(a.year, a.month), YearMonth(b.year, b.month));
    LexConcat(ma, "-" + Pad(a.day, 2), mb, "-" + Pad(b.day, 2));
    LexConcat("-", Pad(a.day, 2), "-", Pad(b.day, 2));
    LexLessIrreflexive("-");
    PadOrder(a.day, b.day, 2);
    assert DateKey(a) == ma + ("-" + Pad(a.day, 2));
    assert DateKey(b) == mb + ("-" + Pad(b.day, 2));
    if ma == mb {
      ParseMonthKeyRoundTrip(YearMonth(a.year, a.month));
      ParseMonthKeyRoundTrip(YearMonth(b.year, b.month));
    }
  }

  /** The civil order of valid dates is the order of their epoch days. */
  lemma DateOrderIsEpochOrder(a: Date, b: Date)
    requires a.Valid() && b.Valid()
    ensures ToEpochDay(a) < ToEpochDay(b) <==>
      a.year < b.year || (a.year == b.year && (a.month < b.month || (a.month == b.month && a.day < b.day)))
  {
    DateBounds(a);
    DateBounds(b);
    if a.year < b.year {
      YearStartMonotone(a.year, b.year);
    } else if b.year < a.year {
      YearStartMonotone(b.year, a.year);
    } else if a.month < b.month {
      DaysBeforeMonthMonotone(a.year, a.month, b.month);
    } else if b.month < a.month {
      DaysBeforeMonthMonotone(a.year, b.month, a.month);
    }
  }

  /** String order of week keys is chronological order of their Mondays. */
  lemma DateKeyChronological(a: Date, b: Date)
    requires a.Valid() && InKeyRange(a.year) && b.Valid() && InKeyRange(b.year)
    ensures LexLess(DateKey(a), DateKey(b)) <==> ToEpochDay(a) < ToEpochDay(b)
  {
    DateKeyOrder(a, b);
    DateOrderIsEpochOrder(a, b);
  }

  /** String order of month keys is chronological order of the months. */
  lemma MonthKeyChronological(a: YearMonth, b: YearMonth)
    requires a.Valid() && InKeyRange(a.year) && b.Valid() && InKeyRange(b.year)
    ensures LexLess(MonthKey(a), MonthKey(b)) <==> MonthStart(a) < MonthStart(b)
  {
    MonthKeyOrder(a, b);
    DateOrderIsEpochOrder(Date(a.year, a.month, 1), Date(b.year, b.month, 1));
  }

  /** `isValidWeekKey`: the key parses and the resolved date is a Monday. */
  predicate IsValidWeekKey(s: string) {
    var d := ParseDateKey(s);
    d.Some? && DayOfWeek(ToEpochDay(d.value)) == 1
  }

  /** `getMonthKeyForWeek`: `None` when the week key does not parse. */
  function MonthKeyForWeek(weekKey: string): (r: Option<string>)
    ensures r.Some? <==> ParseDateKey(weekKey).Some?
    ensures r.Some? ==> ParseMonthKey(r.value).Some? && r.value == weekKey[..7]
  {
    var d :- ParseDateKey(weekKey);
    var ym := YearMonth(d.year, d.month);
    ParseMonthKeyRoundTrip(ym);
    MonthKeyRoundTrip(weekKey[..7]);
    Some(MonthKey(ym))
  }
}
