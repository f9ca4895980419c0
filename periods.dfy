/** Dates of the dataset and the year buckets of the year filter: calendar
    years ("2024") and Indian financial years, April to March ("2024-2025"). */
module Periods {
  import opened Text
  import opened Wrappers

  /** The year mode of the dashboard: 'FY' or 'CY'. */
  datatype YearMode = Financial | Calendar

  datatype Date = Date(year: int, month: int, day: int)

  predicate IsLeapYear(y: int) {
    y % 4 == 0 && (y % 100 != 0 || y % 400 == 0)
  }

  function DaysInMonth(y: int, m: int): (n: int)
    requires 1 <= m <= 12
    ensures 28 <= n <= 31
  {
    if m == 2 then (if IsLeapYear(y) then 29 else 28)
    else if m == 4 || m == 6 || m == 9 || m == 11 then 30
    else 31
  }

  /** A day that exists in the proleptic Gregorian calendar. */
  predicate ValidDate(d: Date) {
    1 <= d.month <= 12 && 1 <= d.day <= DaysInMonth(d.year, d.month)
  }

  /** A date the dataset can write: a real day in years 0 to 9999. */
  predicate Writable(d: Date) {
    ValidDate(d) && 0 <= d.year <= 9999
  }

  // ---------------------------------------------------------------------
  // Reading and writing YYYY-MM-DD

  /** `n` written with exactly `width` digits, leading zeros included. */
  function FixedDigits(n: nat, width: nat): (r: string)
    requires n < Pow10(width)
    ensures |r| == width && AllDigits(r)
    ensures DigitsValue(r) == n
  {
    if width == 0 then []
    else
      var p := FixedDigits(n / 10, width - 1);
      var r := p + [DigitChar(n % 10)];
      assert r[..|r| - 1] == p;
      r
  }

  /** The ISO form of a writable date, as in the dataset's dateISO column. */
  function ShowIso(d: Date): (s: string)
    requires Writable(d)
    ensures |s| == 10
  {
    FixedDigits(d.year, 4) + "-" + FixedDigits(d.month, 2) + "-" + FixedDigits(d.day, 2)
  }

  /** `new Date(dateISO)` followed by the `isNaN(d.getTime())` check, on the
      form the dataset uses: four digits, '-', two digits, '-', two digits,
      naming a real day; anything else, the empty string included, is no
      date. */
  function ParseIsoDate(s: string): (r: Option<Date>)
    ensures r.Some? ==> Writable(r.value)
    ensures r.Some? ==> |s| == 10
  {
    if |s| == 10 && s[4] == '-' && s[7] == '-'
      && AllDigits(s[..4]) && AllDigits(s[5..7]) && AllDigits(s[8..])
    then
      var d := Date(DigitsValue(s[..4]), DigitsValue(s[5..7]), DigitsValue(s[8..]));
      DigitsBound(s[..4]);
      if ValidDate(d) then Some(d) else None
    else None
  }

  lemma {:induction false} DigitsBound(s: string)
    requires AllDigits(s)
    ensures DigitsValue(s) < Pow10(|s|)
  {
    if s != [] {
      DigitsBound(s[..|s| - 1]);
    }
  }

  /** Fixed-width digits are recovered from their value. */
  lemma {:induction false} FixedDigitsOfValue(s: string)
    requires AllDigits(s)
    ensures DigitsValue(s) < Pow10(|s|)
    ensures FixedDigits(DigitsValue(s), |s|) == s
  {
    DigitsBound(s);
    if s != [] {
      var p := s[..|s| - 1];
      FixedDigitsOfValue(p);
      var n := DigitsValue(s);
      assert n / 10 == DigitsValue(p) && n % 10 == DigitValue(s[|s| - 1]);
      assert s == p + [s[|s| - 1]];
    }
  }

  /** Writing a date and reading it back gives the date. */
  lemma IsoRoundTrip(d: Date)
    requires Writable(d)
    ensures ParseIsoDate(ShowIso(d)) == Some(d)
  {
    var y := FixedDigits(d.year, 4);
    var m := FixedDigits(d.month, 2);
    var dd := FixedDigits(d.day, 2);
    var s := ShowIso(d);
    assert s[..4] == y && s[4] == '-' && s[5..7] == m && s[7] == '-' && s[8..] == dd;
  }

  /** A string read as a date is exactly the ISO form of that date: no
      other spelling of a day is accepted. */
  lemma IsoCanonical(s: string)
    requires ParseIsoDate(s).Some?
    ensures ShowIso(ParseIsoDate(s).value) == s
  {
    FixedDigitsOfValue(s[..4]);
    FixedDigitsOfValue(s[5..7]);
    FixedDigitsOfValue(s[8..]);
    assert s == s[..4] + "-" + s[5..7] + "-" + s[8..];
  }

  /** An empty dateISO is skipped. */
  lemma EmptyDateSkipped()
    ensures ParseIsoDate("") == None
  {
  }

  // ---------------------------------------------------------------------
  // Year buckets

  /** The first calendar year of the financial year holding `d`. */
  function FyStart(d: Date): (s: int)
    requires 1 <= d.month <= 12
    ensures s * 12 + 3 <= d.year * 12 + d.month - 1 < s * 12 + 15
  {
    if d.month >= 4 then d.year else d.year - 1
  }

  /** A financial year runs from April of its start year to March of the next. */
  lemma FyStartUnique(d: Date, s: int)
    requires 1 <= d.month <= 12
    requires s * 12 + 3 <= d.year * 12 + d.month - 1 < s * 12 + 15
    ensures FyStart(d) == s
  {
  }

  /** The label of the financial year starting in `s`: `${s}-${s+1}`. */
  function FyLabel(s: int): string {
    ShowInt(s) + "-" + ShowInt(s + 1)
  }

  /** The bucket of a date in the given year mode. */
  function YearKey(d: Date, mode: YearMode): string
    requires 1 <= d.month <= 12
  {
    match mode
    case Financial => FyLabel(FyStart(d))
    case Calendar => ShowInt(d.year)
  }

  /** A run of digits ended by '-' is determined by the text. */
  lemma DigitsThenDash(x: string, y: string, r1: string, r2: string)
    requires AllDigits(x) && AllDigits(y)
    requires x + "-" + r1 == y + "-" + r2
    ensures x == y
  {
    var a := x + "-" + r1;
    var b := y + "-" + r2;
    assert |x| == |y| by {
      assert a[|x|] == '-' && b[|y|] == '-';
    }
    assert x == a[..|x|] && y == b[..|y|];
  }

  /** `${n}` is one-to-one on integers. */
  lemma ShowIntInjective(a: int, b: int)
    requires ShowInt(a) == ShowInt(b)
    ensures a == b
  {
    if a < 0 && b < 0 {
      ShowNatInjective(-a, -b);
    } else if a >= 0 && b >= 0 {
      ShowNatInjective(a, b);
    }
  }

  /** Distinct financial years have distinct labels. */
  lemma FyLabelInjective(a: int, b: int)
    requires FyLabel(a) == FyLabel(b)
    ensures a == b
  {
    if a >= 0 && b >= 0 {
      FyLabelInjectiveNonNegative(a, b);
    } else if a < 0 && b < 0 {
      FyLabelInjectiveNegative(a, b);
    } else {
      FyLabelSign(a);
      FyLabelSign(b);
    }
  }

  /** A label starts with a digit exactly when its start year is not negative. */
  lemma FyLabelSign(a: int)
    ensures |FyLabel(a)| >= 1 && (IsDigit(FyLabel(a)[0]) <==> a >= 0)
  {
    assert FyLabel(a)[0] == ShowInt(a)[0];
  }

  lemma FyLabelInjectiveNonNegative(a: nat, b: nat)
    requires FyLabel(a) == FyLabel(b)
    ensures a == b
  {
    DigitsThenDash(ShowNat(a), ShowNat(b), ShowInt(a + 1), ShowInt(b + 1));
    ShowNatInjective(a, b);
  }

  lemma FyLabelInjectiveNegative(a: int, b: int)
    requires a < 0 && b < 0
    requires FyLabel(a) == FyLabel(b)
    ensures a == b
  {
    NegativeLabel(a);
    NegativeLabel(b);
    SignThenDigits(ShowNat(-a), ShowNat(-b), ShowInt(a + 1), ShowInt(b + 1));
    ShowNatInjective(-a, -b);
  }

  lemma NegativeLabel(a: int)
    requires a < 0
    ensures FyLabel(a) == "-" + ShowNat(-a) + "-" + ShowInt(a + 1)
  {
  }

  lemma SignThenDigits(x: string, y: string, r1: string, r2: string)
    requires AllDigits(x) && AllDigits(y)
    requires "-" + x + "-" + r1 == "-" + y + "-" + r2
    ensures x == y
  {
    assert ("-" + x + "-" + r1)[1..] == x + "-" + r1;
    assert ("-" + y + "-" + r2)[1..] == y + "-" + r2;
    DigitsThenDash(x, y, r1, r2);
  }

  /** Choosing the financial year starting in `s` selects exactly the dates
      from April of `s` to March of `s + 1`. */
  lemma FinancialKeySelects(d: Date, s: int)
    requires 1 <= d.month <= 12
    ensures YearKey(d, Financial) == FyLabel(s)
        <==> s * 12 + 3 <= d.year * 12 + d.month - 1 < s * 12 + 15
  {
    if YearKey(d, Financial) == FyLabel(s) {
      FyLabelInjective(FyStart(d), s);
    }
    if s * 12 + 3 <= d.year * 12 + d.month - 1 < s * 12 + 15 {
      FyStartUnique(d, s);
    }
  }

  /** Choosing the calendar year `y` selects exactly the dates in `y`. */
  lemma CalendarKeySelects(d: Date, y: int)
    requires 1 <= d.month <= 12
    ensures YearKey(d, Calendar) == ShowInt(y) <==> d.year == y
  {
    if YearKey(d, Calendar) == ShowInt(y) {
      ShowIntInjective(d.year, y);
    }
  }

  // ---------------------------------------------------------------------
  // Worked examples: the two sides of the financial-year boundary

  /** The last digit of a number of two or more digits is written last. */
  lemma ShowNatStep(n: nat)
    requires n >= 10
    ensures ShowNat(n) == ShowNat(n / 10) + [DigitChar(n % 10)]
  {
  }

  lemma Show202()
    ensures ShowNat(202) == "202"
  {
    ShowNatStep(202);
    ShowNatStep(20);
    assert ShowNat(2) == "2";
  }

  lemma Show2023()
    ensures ShowInt(2023) == "2023"
  {
    ShowNatStep(2023);
    Show202();
  }

  lemma Show2024()
    ensures ShowInt(2024) == "2024"
  {
    ShowNatStep(2024);
    Show202();
  }

  lemma Show2025()
    ensures ShowInt(2025) == "2025"
  {
    ShowNatStep(2025);
    Show202();
  }

  lemma Label2023()
    ensures FyLabel(2023) == "2023-2024"
  {
    Show2023();
    Show2024();
  }

  lemma Label2024()
    ensures FyLabel(2024) == "2024-2025"
  {
    Show2024();
    Show2025();
  }

  /** 31 March 2024 closes financial year 2023-2024 ... */
  lemma LastDayOfFinancialYear()
    ensures YearKey(Date(2024, 3, 31), Financial) == "2023-2024"
    ensures YearKey(Date(2024, 3, 31), Calendar) == "2024"
  {
    Label2023();
    Show2024();
  }

  /** ... and 1 April 2024 opens 2024-2025, in the same calendar year. */
  lemma FirstDayOfFinancialYear()
    ensures YearKey(Date(2024, 4, 1), Financial) == "2024-2025"
    ensures YearKey(Date(2024, 4, 1), Calendar) == "2024"
  {
    Label2024();
    Show2024();
  }

  lemma Digits2024()
    ensures AllDigits("2024") && DigitsValue("2024") == 2024
  {
    assert "2024"[..3] == "202" && "202"[..2] == "20" && "20"[..1] == "2" && "2"[..0] == "";
  }

  lemma DigitsPair(s: string, n: nat)
    requires |s| == 2 && IsDigit(s[0]) && IsDigit(s[1])
    requires n == DigitValue(s[0]) * 10 + DigitValue(s[1])
    ensures AllDigits(s) && DigitsValue(s) == n
  {
    var first := s[..1];
    assert first == [s[0]] && first[..0] == "" && first[0] == s[0];
    assert DigitsValue(first) == DigitValue(s[0]);
    assert s[..|s| - 1] == first;
  }

  /** The dataset's spelling of 31 March 2024 is read as that day. */
  lemma March31Read()
    ensures ParseIsoDate("2024-03-31") == Some(Date(2024, 3, 31))
  {
    var s := "2024-03-31";
    assert s[..4] == "2024" && s[5..7] == "03" && s[8..] == "31";
    Digits2024();
    DigitsPair("03", 3);
    DigitsPair("31", 31);
  }

  /** The dataset's spelling of 1 April 2024 is read as that day. */
  lemma April1Read()
    ensures ParseIsoDate("2024-04-01") == Some(Date(2024, 4, 1))
  {
    var s := "2024-04-01";
    assert s[..4] == "2024" && s[5..7] == "04" && s[8..] == "01";
    Digits2024();
    DigitsPair("04", 4);
    DigitsPair("01", 1);
  }

}
