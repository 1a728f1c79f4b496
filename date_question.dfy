/**
 * The date widget: the user types a day-month-year text, the widget stores
 * a canonical `yyyy-MM-dd` string and shows the stored value back as
 * `dd-MM-yyyy`. Parsing, validity and formatting by the date library are
 * written out here for the fixed patterns the widget uses.
 */
module DateQuestion {
  import opened Wrappers
  import opened Text

  datatype CalendarDate = CalendarDate(year: nat, month: nat, day: nat)

  predicate IsLeapYear(y: nat) {
    (y % 4 == 0 && y % 100 != 0) || y % 400 == 0
  }

  function DaysInMonth(y: nat, m: nat): nat {
    if m == 2 then (if IsLeapYear(y) then 29 else 28)
    else if m == 4 || m == 6 || m == 9 || m == 11 then 30
    else 31
  }

  /** A real day of the (proleptic Gregorian) calendar, year 1 or later. */
  predicate IsValidDate(d: CalendarDate) {
    d.year >= 1 && 1 <= d.month <= 12 && 1 <= d.day <= DaysInMonth(d.year, d.month)
  }

  /** `format(date, 'yyyy-MM-dd')`. */
  function FormatIso(d: CalendarDate): string {
    Pad(d.year, 4) + "-" + Pad(d.month, 2) + "-" + Pad(d.day, 2)
  }

  /** `format(date, 'dd-MM-yyyy')`. */
  function FormatDisplay(d: CalendarDate): string {
    Pad(d.day, 2) + "-" + Pad(d.month, 2) + "-" + Pad(d.year, 4)
  }

  /** `input.replace(/[^0-9]/g, '')`. */
  function DigitsOf(s: string): (r: string)
    ensures AllDigits(r) && |r| <= |s|
  {
    if s == [] then []
    else if IsDigit(s[0]) then [s[0]] + DigitsOf(s[1..])
    else DigitsOf(s[1..])
  }

  /**
   * What `handleChange` passes to `onChange`: only when the input holds
   * exactly eight digits, read as day (1-2), month (3-4) and year (5-8),
   * and they form a real date.
   */
  function TypedDate(input: string): (r: Option<string>)
    ensures r.Some? ==> |DigitsOf(input)| == 8
  {
    var c := DigitsOf(input);
    if |c| != 8 then None
    else
      var d := CalendarDate(DigitsValue(c[4..8]), DigitsValue(c[2..4]), DigitsValue(c[0..2]));
      if IsValidDate(d) then Some(FormatIso(d)) else None
  }

  /** Text of the shape yyyy-MM-dd. */
  predicate IsoShaped(value: string) {
    |value| == 10 && value[4] == '-' && value[7] == '-'
      && AllDigits(value[0..4]) && AllDigits(value[5..7]) && AllDigits(value[8..10])
  }

  /** The date whose digits an ISO-shaped text holds. */
  function IsoFields(value: string): CalendarDate
    requires IsoShaped(value)
  {
    CalendarDate(DigitsValue(value[0..4]), DigitsValue(value[5..7]), DigitsValue(value[8..10]))
  }

  lemma FormatIsoOfDigits(y: string, m: string, d: string)
    requires AllDigits(y) && AllDigits(m) && AllDigits(d)
    requires |y| == 4 && |m| == 2 && |d| == 2
    ensures FormatIso(CalendarDate(DigitsValue(y), DigitsValue(m), DigitsValue(d))) == y + "-" + m + "-" + d
  {
    PadDigitsValue(y);
    PadDigitsValue(m);
    PadDigitsValue(d);
  }

  lemma IsoFieldsFormat(value: string)
    requires IsoShaped(value)
    ensures FormatIso(IsoFields(value)) == value
  {
    FormatIsoOfDigits(value[0..4], value[5..7], value[8..10]);
    assert value == value[0..4] + "-" + value[5..7] + "-" + value[8..10];
  }

  /** `parse(value, 'yyyy-MM-dd')` followed by `isValid`, for the canonical ten-character form. */
  function ParseIso(value: string): (r: Option<CalendarDate>)
    ensures r.Some? ==> IsValidDate(r.value) && FormatIso(r.value) == value
  {
    if IsoShaped(value) then
      var d := IsoFields(value);
      IsoFieldsFormat(value);
      if IsValidDate(d) then Some(d) else None
    else None
  }

  /** The text the effect and `handleBlur` show for a stored value, or None to leave the text as it is. */
  function StoredToDisplay(value: string): Option<string> {
    if value == "" then None
    else match ParseIso(value)
      case Some(d) => Some(FormatDisplay(d))
      case None => None
  }

  lemma {:induction false} DigitsOfAppend(a: string, b: string)
    ensures DigitsOf(a + b) == DigitsOf(a) + DigitsOf(b)
  {
    if a == [] {
      assert a + b == b;
    } else {
      assert (a + b)[0] == a[0];
      assert (a + b)[1..] == a[1..] + b;
      DigitsOfAppend(a[1..], b);
    }
  }

  lemma {:induction false} DigitsOfDigits(s: string)
    requires AllDigits(s)
    ensures DigitsOf(s) == s
  {
    if s != [] {
      DigitsOfDigits(s[1..]);
    }
  }

  lemma {:induction false} DigitsValuePad(n: nat, width: nat)
    requires n < Power10(width)
    ensures DigitsValue(Pad(n, width)) == n
  {
    if width > 0 {
      var p := Pad(n, width);
      assert p[..|p| - 1] == Pad(n / 10, width - 1);
      DigitsValuePad(n / 10, width - 1);
    }
  }

  /** A valid date as typed emits the ISO text with the year, month and day digits reordered. */
  lemma TypedDateReorders(input: string)
    requires TypedDate(input).Some?
    ensures var c := DigitsOf(input);
      TypedDate(input).value == c[4..8] + "-" + c[2..4] + "-" + c[0..2]
  {
    var c := DigitsOf(input);
    PadDigitsValue(c[4..8]);
    PadDigitsValue(c[2..4]);
    PadDigitsValue(c[0..2]);
  }

  /** What the widget emits always reads back as the same valid date. */
  lemma TypedDateIsCanonical(input: string)
    requires TypedDate(input).Some?
    ensures ParseIso(TypedDate(input).value).Some?
  {
    var c := DigitsOf(input);
    var d := CalendarDate(DigitsValue(c[4..8]), DigitsValue(c[2..4]), DigitsValue(c[0..2]));
    var v := FormatIso(d);
    PadDigitsValue(c[4..8]);
    PadDigitsValue(c[2..4]);
    PadDigitsValue(c[0..2]);
    assert v[0..4] == c[4..8] && v[5..7] == c[2..4] && v[8..10] == c[0..2];
  }

  /** A stored date shown as dd-MM-yyyy and typed back emits the same stored value. */
  lemma DisplayRoundTrip(value: string)
    requires StoredToDisplay(value).Some?
    ensures TypedDate(StoredToDisplay(value).value) == Some(value)
  {
    var d := ParseIso(value).value;
    var dd, mm, yyyy := Pad(d.day, 2), Pad(d.month, 2), Pad(d.year, 4);
    var shown := FormatDisplay(d);
    DigitsOfSeparated(dd, mm, yyyy, '-');
    var c := DigitsOf(shown);
    assert c == dd + mm + yyyy;
    assert c[0..2] == dd && c[2..4] == mm && c[4..8] == yyyy;
    DigitsValuePad(d.day, 2);
    DigitsValuePad(d.month, 2);
    assert d.year < Power10(4) by {
      DigitsValueBound(value[0..4]);
    }
    DigitsValuePad(d.year, 4);
  }

  lemma DigitsOfSeparated(dd: string, mm: string, yyyy: string, sep: char)
    requires AllDigits(dd) && AllDigits(mm) && AllDigits(yyyy) && !IsDigit(sep)
    ensures DigitsOf(dd + [sep] + mm + [sep] + yyyy) == dd + mm + yyyy
  {
    var a := dd + [sep];
    var b := a + mm;
    var c := b + [sep];
    DigitsOfDigits(dd);
    DigitsOfDigits(mm);
    DigitsOfDigits(yyyy);
    assert DigitsOf([sep]) == [];
    DigitsOfAppend(dd, [sep]);
    assert DigitsOf(a) == dd;
    DigitsOfAppend(a, mm);
    assert DigitsOf(b) == dd + mm;
    DigitsOfAppend(b, [sep]);
    assert DigitsOf(c) == dd + mm;
    DigitsOfAppend(c, yyyy);
  }

  /** Separators are ignored: the digits alone decide what is emitted. */
  lemma SeparatorsIgnored(dd: string, mm: string, yyyy: string, sep: char)
    requires AllDigits(dd) && AllDigits(mm) && AllDigits(yyyy) && !IsDigit(sep)
    ensures TypedDate(dd + [sep] + mm + [sep] + yyyy) == TypedDate(dd + mm + yyyy)
  {
    DigitsOfSeparated(dd, mm, yyyy, sep);
    DigitsOfDigits(dd + mm + yyyy);
  }

  lemma SeedDigits()
    ensures DigitsValue("1990") == 1990 && DigitsValue("03") == 3 && DigitsValue("15") == 15
  {
    assert "1990"[..3] == "199" && "199"[..2] == "19" && "19"[..1] == "1" && "1"[..0] == "";
    assert "03"[..1] == "0" && "0"[..0] == "";
    assert "15"[..1] == "1";
  }

  lemma MarchFifteenthFields()
    ensures DigitsValue("15031990"[4..8]) == 1990
    ensures DigitsValue("15031990"[2..4]) == 3
    ensures DigitsValue("15031990"[0..2]) == 15
  {
    var c := "15031990";
    SeedDigits();
    assert c[0..2] == "15" && c[2..4] == "03" && c[4..8] == "1990";
  }

  lemma MarchFifteenthValid()
    ensures TypedDate("15031990").Some?
  {
    DigitsOfDigits("15031990");
    MarchFifteenthFields();
    assert IsValidDate(CalendarDate(1990, 3, 15));
  }

  lemma MarchFifteenthReordered()
    ensures DigitsOf("15031990") == "15031990"
    ensures "15031990"[4..8] + "-" + "15031990"[2..4] + "-" + "15031990"[0..2] == "1990-03-15"
  {
    DigitsOfDigits("15031990");
  }

  lemma SeedSpellings()
    ensures TypedDate("15-03-1990") == TypedDate("15031990")
    ensures TypedDate("15/03/1990") == TypedDate("15031990")
  {
    SeparatorsIgnored("15", "03", "1990", '-');
    SeparatorsIgnored("15", "03", "1990", '/');
    assert "15" + ['-'] + "03" + ['-'] + "1990" == "15-03-1990";
    assert "15" + ['/'] + "03" + ['/'] + "1990" == "15/03/1990";
    assert "15" + "03" + "1990" == "15031990";
  }

  /** 15 March 1990, typed as `15031990`, `15-03-1990` or `15/03/1990`, is stored as `1990-03-15`. */
  lemma MarchFifteenth()
    ensures TypedDate("15031990") == Some("1990-03-15")
    ensures TypedDate("15-03-1990") == Some("1990-03-15")
    ensures TypedDate("15/03/1990") == Some("1990-03-15")
  {
    MarchFifteenthValid();
    MarchFifteenthReordered();
    TypedDateReorders("15031990");
    SeedSpellings();
  }

  /** The widget's `displayValue` state and the handlers that set it. */
  class DateInput {
    var displayValue: string

    constructor ()
      ensures displayValue == ""
    {
      displayValue := "";
    }

    /** The effect on a new stored value, and `handleBlur`: show a parseable stored value as dd-MM-yyyy. */
    method ShowStored(value: string)
      modifies this
      ensures StoredToDisplay(value).Some? ==> displayValue == StoredToDisplay(value).value
      ensures StoredToDisplay(value).None? ==> displayValue == old(displayValue)
    {
      var shown := StoredToDisplay(value);
      if shown.Some? {
        displayValue := shown.value;
      }
    }

    /** `handleChange`: the raw text is always shown; a complete valid date is also emitted. */
    method Change(input: string) returns (emitted: Option<string>)
      modifies this
      ensures displayValue == input
      ensures emitted == TypedDate(input)
    {
      displayValue := input;
      emitted := TypedDate(input);
    }
  }
}
