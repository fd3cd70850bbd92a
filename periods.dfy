/**
 * The period generator inside `main` (auto_455.py:244-255): for the month
 * `back` months before today's, the first and last day as `DDMMYY` strings
 * and the file base name `<MONTH ABBREVIATION><year>`.
 *
 * The month abbreviations come from the process locale, so they are a
 * parameter: a table of twelve names, January first.
 */
module Periods {
  import opened Wrappers
  import opened PyText

  /** `range(3)` in `main`: the current month and the two before it. */
  const PeriodCount := 3

  /** `datetime` accepts years 1 to 9999 only. */
  const MinYear := 1
  const MaxYear := 9999

  datatype Period = Period(
    year: int,
    month: int,
    lastDay: int,
    start: string,     // data_inicio_str
    end: string,       // data_fim_str
    baseName: string)  // nome_arquivo_mes

  /** Count of months since the start of year 0, the scale on which stepping back is a subtraction. */
  function MonthNumber(year: int, month: int): int {
    12 * year + month - 1
  }

  /**
   * `mes = month - back; if mes < 1: mes = 12 + mes; ano -= 1`. The wrap is
   * applied once, so only `back < month + 12` gives a month `datetime` accepts.
   */
  function MonthsBack(year: int, month: int, back: nat): (r: (int, int))
    requires 1 <= month <= 12
    ensures r.1 <= 12
    ensures 1 <= r.1 <==> back < month + 12
    ensures 1 <= r.1 ==> MonthNumber(r.0, r.1) == MonthNumber(year, month) - back
    ensures r.0 == (if back < month then year else year - 1)
  {
    var mes := month - back;
    if mes < 1 then (year - 1, 12 + mes) else (year, mes)
  }

  /** `calendar.isleap`: the Gregorian rule. */
  predicate IsLeap(y: int) {
    y % 4 == 0 && (y % 100 != 0 || y % 400 == 0)
  }

  /** `calendar.mdays`, January first. */
  const MonthDays: seq<int> := [31, 28, 31, 30, 31, 30, 31, 31, 30, 31, 30, 31]

  /** `calendar.monthrange(y, m)[1]`: the number of the month's last day. */
  function DaysInMonth(y: int, m: int): (d: int)
    requires 1 <= m <= 12
    ensures m == 2 ==> d == (if IsLeap(y) then 29 else 28)
    ensures m != 2 ==> (d == 30 <==> m in {4, 6, 9, 11}) && (d == 31 <==> m !in {4, 6, 9, 11})
  {
    MonthDays[m - 1] + (if m == 2 && IsLeap(y) then 1 else 0)
  }

  function DaysUpTo(y: int, m: int): int
    requires 0 <= m <= 12
  {
    if m == 0 then 0 else DaysUpTo(y, m - 1) + DaysInMonth(y, m)
  }

  /** The twelve last days add up to the length of the year: 366 in a leap year, 365 otherwise. */
  lemma MonthsFillTheYear(y: int)
    ensures DaysUpTo(y, 12) == if IsLeap(y) then 366 else 365
  {
    assert DaysUpTo(y, 1) == 31;
    assert DaysUpTo(y, 2) == 59 + (if IsLeap(y) then 1 else 0);
    assert DaysUpTo(y, 4) == DaysUpTo(y, 2) + 61;
    assert DaysUpTo(y, 6) == DaysUpTo(y, 4) + 61;
    assert DaysUpTo(y, 8) == DaysUpTo(y, 6) + 62;
    assert DaysUpTo(y, 10) == DaysUpTo(y, 8) + 61;
    assert DaysUpTo(y, 12) == DaysUpTo(y, 10) + 61;
  }

  /** The three two-digit fields of a `DDMMYY` string. */
  function Fields(s: string): (int, int, int)
    requires |s| == 6 && AllDigits(s)
  {
    (DigitsValue(s[..2]), DigitsValue(s[2..4]), DigitsValue(s[4..]))
  }

  /** `datetime(year, month, day).strftime('%d%m%y')`. */
  function FormatDDMMYY(day: int, month: int, year: int): (s: string)
    requires 1 <= day <= 31 && 1 <= month <= 12 && year >= MinYear
    ensures |s| == 6 && AllDigits(s)
    ensures Fields(s) == (day, month, year % 100)
  {
    var s := Pad2(day) + Pad2(month) + Pad2(year % 100);
    assert s[..2] == Pad2(day) && s[2..4] == Pad2(month) && s[4..] == Pad2(year % 100);
    s
  }

  /**
   * One turn of the period computation: `None` where `datetime(ano, mes, 1)`
   * raises (`mes` still below 1, or year 0).
   */
  function PeriodFor(year: int, month: int, back: nat, abbreviations: seq<string>): (p: Option<Period>)
    requires MinYear <= year <= MaxYear && 1 <= month <= 12
    requires |abbreviations| == 12
    ensures p.Some? <==> back < month + 12 && (back < month || year > MinYear)
    ensures p.Some? ==> 1 <= p.value.month <= 12 && MinYear <= p.value.year <= year
    ensures p.Some? ==> MonthNumber(p.value.year, p.value.month) == MonthNumber(year, month) - back
    ensures p.Some? ==> p.value.lastDay == DaysInMonth(p.value.year, p.value.month)
    ensures p.Some? ==> |p.value.start| == 6 && AllDigits(p.value.start)
                        && Fields(p.value.start) == (1, p.value.month, p.value.year % 100)
    ensures p.Some? ==> |p.value.end| == 6 && AllDigits(p.value.end)
                        && Fields(p.value.end) == (p.value.lastDay, p.value.month, p.value.year % 100)
  {
    var (ano, mes) := MonthsBack(year, month, back);
    if mes < 1 || ano < MinYear then None
    else
      var last := DaysInMonth(ano, mes);
      Some(Period(ano, mes, last,
                  FormatDDMMYY(1, mes, ano),
                  FormatDDMMYY(last, mes, ano),
                  Upper(abbreviations[mes - 1]) + DecimalString(ano)))
  }

  /**
   * The base name is the upper-cased abbreviation followed by the year's
   * digits: four of them, from year 1000 on.
   */
  lemma BaseNameParts(year: int, month: int, back: nat, abbreviations: seq<string>)
    requires MinYear <= year <= MaxYear && 1 <= month <= 12
    requires |abbreviations| == 12
    requires PeriodFor(year, month, back, abbreviations).Some?
    ensures var p := PeriodFor(year, month, back, abbreviations).value;
            var name := Upper(abbreviations[p.month - 1]);
            && |p.baseName| >= |name| + 1
            && p.baseName[..|name|] == name
            && AllDigits(p.baseName[|name|..])
            && DigitsValue(p.baseName[|name|..]) == p.year
            && (p.year >= 1000 ==> |p.baseName| == |name| + 4)
  {
    var p := PeriodFor(year, month, back, abbreviations).value;
    var name := Upper(abbreviations[p.month - 1]);
    assert p.baseName[|name|..] == DecimalString(p.year);
    DecimalStringRoundTrip(p.year);
    if p.year >= 1000 { DecimalStringOfFourDigitNumber(p.year); }
  }

  /** Within `range(3)` every period is defined except, in January or February of year 1, the ones before year 1. */
  lemma LoopPeriodsDefined(year: int, month: int, i: nat, abbreviations: seq<string>)
    requires MinYear <= year <= MaxYear && 1 <= month <= 12
    requires |abbreviations| == 12
    requires i < PeriodCount
    ensures PeriodFor(year, month, i, abbreviations).Some? <==> year > MinYear || i < month
    ensures year > MinYear || i < month ==>
      var p := PeriodFor(year, month, i, abbreviations).value;
      && p.month == (if i < month then month - i else month - i + 12)
      && p.year == (if i < month then year else year - 1)
  {
  }

  const PtBrAbbreviations := ["jan", "fev", "mar", "abr", "mai", "jun", "jul", "ago", "set", "out", "nov", "dez"]

  lemma February2024Dates()
    ensures FormatDDMMYY(1, 2, 2024) == "010224" && FormatDDMMYY(29, 2, 2024) == "290224"
  {
    assert Pad2(1) == "01" && Pad2(2) == "02" && Pad2(24) == "24" && Pad2(29) == "29";
  }

  lemma February2024Name()
    ensures Upper(PtBrAbbreviations[1]) + DecimalString(2024) == "FEV2024"
  {
    assert DecimalString(2) == "2" && DecimalString(20) == "20" && DecimalString(202) == "202";
    assert Upper("fev") == "FEV";
  }

  /** Reference date 2024-03-15, one month back: February of a leap year, with the Brazilian abbreviations. */
  lemma LeapFebruaryExample()
    ensures PeriodFor(2024, 3, 1, PtBrAbbreviations) == Some(Period(2024, 2, 29, "010224", "290224", "FEV2024"))
  {
    February2024Dates();
    February2024Name();
    assert MonthsBack(2024, 3, 1) == (2024, 2);
    assert DaysInMonth(2024, 2) == 29 by { assert IsLeap(2024); }
  }

  lemma November2023Dates()
    ensures FormatDDMMYY(1, 11, 2023) == "011123" && FormatDDMMYY(30, 11, 2023) == "301123"
  {
    assert Pad2(1) == "01" && Pad2(11) == "11" && Pad2(23) == "23" && Pad2(30) == "30";
  }

  lemma November2023Name()
    ensures Upper(PtBrAbbreviations[10]) + DecimalString(2023) == "NOV2023"
  {
    assert DecimalString(2) == "2" && DecimalString(20) == "20" && DecimalString(202) == "202";
    assert Upper("nov") == "NOV";
  }

  /**
   * Reference date 2024-01-10, two months back: the year wraps to November
   * 2023 (January minus two is month -1, which the single wrap turns into 11).
   */
  lemma YearWrapExample()
    ensures PeriodFor(2024, 1, 2, PtBrAbbreviations) == Some(Period(2023, 11, 30, "011123", "301123", "NOV2023"))
  {
    November2023Dates();
    November2023Name();
    assert MonthsBack(2024, 1, 2) == (2023, 11);
    assert DaysInMonth(2023, 11) == 30;
  }
}
