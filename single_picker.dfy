/**
 * The single-date picker: a pop-up month grid bound to a `YYYY-MM-DD`
 * string value. The value is read into the picker's state when it changes,
 * and Apply / Clear report a string through `onChange`, kept here as the log
 * `changes`.
 */
module SinglePicker {
  import opened Wrappers
  import opened Strings
  import opened Calendar

  /**
   * `ymd.split('-').map(Number)` destructured into y, m, d, then
   * `new Date(y, m - 1, d)`: None is the invalid date, which arises when a
   * part is missing or is not a number. Parts after the third are ignored.
   */
  function ParseFields(ymd: string): (r: Option<Date>)
    ensures r.Some? ==> ValidDate(r.value)
    ensures r.Some? <==>
      var parts := Split(ymd, '-');
      |parts| >= 3 && AllDigits(parts[0]) && AllDigits(parts[1]) && AllDigits(parts[2])
  {
    var parts := Split(ymd, '-');
    if |parts| < 3 then None
    else
      match (ToNumber(parts[0]), ToNumber(parts[1]), ToNumber(parts[2]))
      case (Some(y), Some(m), Some(d)) => Some(MakeDay(y, m as int - 1, d))
      case _ => None
  }

  /** `parseLocalYMD`: the empty string means now, given as a parameter. */
  function ParseLocalYMD(ymd: string, now: Date): (r: Option<Date>)
    ensures ymd == "" ==> r == Some(now)
    ensures ymd != "" ==> r == ParseFields(ymd)
  {
    if ymd == "" then Some(now) else ParseFields(ymd)
  }

  /** `formatLocalYMD`: the year as `String` prints it, then month and day padded to two digits. */
  function FormatLocalYMD(d: Date): (s: string)
    requires ValidDate(d)
  {
    IntToString(d.year) + "-" + PadStart2(NatToString(d.month + 1)) + "-" + PadStart2(NatToString(d.day))
  }

  /** The three fields of a formatted day are the year's digits and two two-digit fields. */
  lemma FormatFields(d: Date)
    requires ValidDate(d) && d.year >= 0
    ensures Split(FormatLocalYMD(d), '-') ==
      [NatToString(d.year), PadStart2(NatToString(d.month + 1)), PadStart2(NatToString(d.day))]
    ensures |PadStart2(NatToString(d.month + 1))| == 2 && |PadStart2(NatToString(d.day))| == 2
  {
    var ys := NatToString(d.year);
    var ms := PadStart2(NatToString(d.month + 1));
    var ds := PadStart2(NatToString(d.day));
    PaddedValue(d.month + 1);
    PaddedValue(d.day);
    NoDash(ys);
    NoDash(ms);
    NoDash(ds);
    assert IntToString(d.year) == ys;
    assert FormatLocalYMD(d) == ys + ['-'] + ms + ['-'] + ds;
    SplitThree(ys, ms, ds, '-');
  }

  /** Formatting a day of year 100 or later and parsing the text back gives the same day. */
  lemma ParseFormat(d: Date, now: Date)
    requires ValidDate(d) && d.year >= 100
    ensures ParseLocalYMD(FormatLocalYMD(d), now) == Some(d)
  {
    FormatFields(d);
    DigitsOfNat(d.year);
    PaddedValue(d.month + 1);
    PaddedValue(d.day);
    MakeDayOfValid(d.year, d.month, d.day);
  }

  /**
   * A `YYYY-MM-DD` string of a real calendar day (four-digit year without a
   * leading zero, two-digit month and day) survives parsing and formatting.
   */
  lemma FormatParse(y: string, m: string, d: string, now: Date)
    requires |y| == 4 && AllDigits(y) && y[0] != '0'
    requires |m| == 2 && AllDigits(m) && |d| == 2 && AllDigits(d)
    requires ValidDate(Date(DigitsValue(y), DigitsValue(m) - 1, DigitsValue(d)))
    ensures var s := y + "-" + m + "-" + d;
      ParseLocalYMD(s, now).Some? && FormatLocalYMD(ParseLocalYMD(s, now).value) == s
  {
    var s := y + "-" + m + "-" + d;
    NoDash(y);
    NoDash(m);
    NoDash(d);
    assert s == y + ['-'] + m + ['-'] + d;
    SplitThree(y, m, d, '-');
    var day := Date(DigitsValue(y), DigitsValue(m) - 1, DigitsValue(d));
    DigitsValuePositive(y);
    assert DigitsValue(y) >= 1000 by {
      FourDigits(y);
    }
    MakeDayOfValid(day.year, day.month, day.day);
    assert ParseLocalYMD(s, now) == Some(day);
    NatOfDigits(y);
    TwoDigits(m);
    TwoDigits(d);
  }

  /** An impossible day is not rejected: 30 February 2024 is read as 1 March 2024. */
  lemma ParseOverflow(now: Date)
    ensures ParseLocalYMD("2024-02-30", now) == Some(Date(2024, 2, 1))
  {
    assert "2024-02-30" == "2024" + ['-'] + "02" + ['-'] + "30";
    SplitThree("2024", "02", "30", '-');
    LiteralValues();
    FebruaryThirtieth();
  }

  lemma LiteralValues()
    ensures AllDigits("2024") && DigitsValue("2024") == 2024
    ensures AllDigits("02") && DigitsValue("02") == 2
    ensures AllDigits("30") && DigitsValue("30") == 30
  {
    assert "2024"[..3] == "202" && "202"[..2] == "20" && "20"[..1] == "2" && "2"[..0] == "";
    assert "02"[..1] == "0" && "0"[..0] == "";
    assert "30"[..1] == "3" && "3"[..0] == "";
  }

  lemma FebruaryThirtieth()
    ensures MakeDay(2024, 1, 30) == Date(2024, 2, 1)
  {
    var r := MakeDay(2024, 1, 30);
    assert FullYear(2024) + 1 / 12 == 2024 && 1 % 12 == 1;
    assert IsLeapYear(2024) && MonthLength(2024, 1) == 29;
    NextFirstDay(2024, 1);
    assert DayNumber(r) == DayNumber(Date(2024, 2, 1));
    BeforeIffDayNumber(r, Date(2024, 2, 1));
  }

  lemma NoDash(s: string)
    requires AllDigits(s)
    ensures '-' !in s
  {
  }

  lemma FourDigits(y: string)
    requires |y| == 4 && AllDigits(y) && y[0] != '0'
    ensures DigitsValue(y) >= 1000
  {
    var p := y[..3];
    var q := p[..2];
    var r := q[..1];
    assert y[..|y| - 1] == p && p[..|p| - 1] == q && q[..|q| - 1] == r;
    assert r[..0] == [] && r[0] == y[0];
    assert DigitsValue(r) >= 1;
    assert DigitsValue(q) >= 10 * DigitsValue(r);
    assert DigitsValue(p) >= 10 * DigitsValue(q);
    assert DigitsValue(y) >= 10 * DigitsValue(p);
  }

  /** `value ? … : …`: only a present, non-empty string counts. */
  predicate Truthy(value: Option<string>) {
    value.Some? && value.value != ""
  }

  /** The day the value denotes, when it denotes one. */
  function ValueDay(value: Option<string>): Option<Date> {
    if Truthy(value) then ParseFields(value.value) else None
  }

  class SingleDatePicker {
    var isOpen: bool
    var viewDate: Date
    var selectedDate: Option<Date>
    /** The strings passed to `onChange`, oldest first. */
    var changes: seq<string>

    ghost predicate Valid()
      reads this
    {
      ValidDate(viewDate) && viewDate.day == 1
      && (selectedDate.Some? ==> ValidDate(selectedDate.value))
    }

    /**
     * The first render: a usable value is parsed, an invalid one falls back
     * to now, and the selection is set whenever the value is non-empty.
     */
    constructor(value: Option<string>, now: Date)
      requires ValidDate(now)
      ensures Valid()
      ensures var initial := if Truthy(value) then ParseLocalYMD(value.value, now) else Some(now);
        var valid := initial.GetOr(now);
        viewDate == FirstOfMonth(valid)
        && selectedDate == (if Truthy(value) then Some(valid) else None)
      ensures !isOpen && changes == []
    {
      var initial := if Truthy(value) then ParseLocalYMD(value.value, now) else Some(now);
      var valid := initial.GetOr(now);
      var first := FirstOfMonth(valid);
      assert ValidDate(first) && first.day == 1;
      isOpen := false;
      viewDate := first;
      selectedDate := if Truthy(value) then Some(valid) else None;
      changes := [];
    }

    /** The effect on `value`: a valid day is selected and shown, anything else clears the selection. */
    method SyncValue(value: Option<string>)
      requires Valid()
      modifies this
      ensures Valid()
      ensures selectedDate == ValueDay(value)
      ensures ValueDay(value).Some? ==> viewDate == FirstOfMonth(ValueDay(value).value)
      ensures ValueDay(value).None? ==> viewDate == old(viewDate)
      ensures isOpen == old(isOpen) && changes == old(changes)
    {
      if Truthy(value) {
        var d := ParseLocalYMD(value.value, viewDate);
        if d.Some? {
          selectedDate := d;
          var first := FirstOfMonth(d.value);
          assert ValidDate(first) && first.day == 1;
          viewDate := first;
        } else {
          selectedDate := None;
        }
      } else {
        selectedDate := None;
      }
    }

    /** The highlighted cell: same year, month and day as the selection. */
    function IsDaySelected(d: Date): (b: bool)
      reads this
      ensures b <==>
        selectedDate.Some? && d.year == selectedDate.value.year
        && d.month == selectedDate.value.month && d.day == selectedDate.value.day
    {
      selectedDate.Some? && d == selectedDate.value
    }

    /** A click on a grid cell selects that day and reports nothing; cells are real days. */
    method HandleDateClick(d: Date)
      requires Valid() && ValidDate(d)
      modifies this
      ensures Valid()
      ensures selectedDate == Some(d)
      ensures isOpen == old(isOpen) && viewDate == old(viewDate) && changes == old(changes)
    {
      selectedDate := Some(d);
    }

    method ShowPreviousMonth()
      requires Valid()
      modifies this
      ensures Valid()
      ensures viewDate == PrevMonth(old(viewDate))
      ensures isOpen == old(isOpen) && selectedDate == old(selectedDate) && changes == old(changes)
    {
      viewDate := PrevMonth(viewDate);
    }

    method ShowNextMonth()
      requires Valid()
      modifies this
      ensures Valid()
      ensures viewDate == NextMonth(old(viewDate))
      ensures isOpen == old(isOpen) && selectedDate == old(selectedDate) && changes == old(changes)
    {
      viewDate := NextMonth(viewDate);
    }

    method Toggle()
      modifies this
      ensures isOpen == !old(isOpen)
      ensures viewDate == old(viewDate) && selectedDate == old(selectedDate) && changes == old(changes)
    {
      isOpen := !isOpen;
    }

    /** "Limpiar": nothing selected, the empty string reported, closed. */
    method Clear()
      requires Valid()
      modifies this
      ensures Valid()
      ensures selectedDate == None && changes == old(changes) + [""] && !isOpen
      ensures viewDate == old(viewDate)
    {
      selectedDate := None;
      changes := changes + [""];
      isOpen := false;
    }

    /** "Cancelar" and the backdrop: closed, nothing reported, nothing else changed. */
    method Cancel()
      modifies this
      ensures !isOpen
      ensures viewDate == old(viewDate) && selectedDate == old(selectedDate) && changes == old(changes)
    {
      isOpen := false;
    }

    /** "Aplicar": the selected day as `YYYY-MM-DD`, or the empty string, is reported; closed. */
    method Apply()
      requires Valid()
      modifies this
      ensures Valid()
      ensures old(selectedDate).Some? ==> changes == old(changes) + [FormatLocalYMD(old(selectedDate).value)]
      ensures old(selectedDate).None? ==> changes == old(changes) + [""]
      ensures !isOpen && viewDate == old(viewDate) && selectedDate == old(selectedDate)
    {
      if selectedDate.Some? {
        changes := changes + [FormatLocalYMD(selectedDate.value)];
      } else {
        changes := changes + [""];
      }
      isOpen := false;
    }
  }

  /**
   * Mounting: the first render's state followed by the `[value]` effect,
   * which React runs right after it. An unusable value leaves no selection
   * and shows the month of now.
   */
  method Mount(value: Option<string>, now: Date) returns (p: SingleDatePicker)
    requires ValidDate(now)
    ensures fresh(p) && p.Valid()
    ensures p.selectedDate == ValueDay(value)
    ensures p.viewDate == FirstOfMonth(ValueDay(value).GetOr(now))
    ensures !p.isOpen && p.changes == []
  {
    p := new SingleDatePicker(value, now);
    p.SyncValue(value);
  }

  /**
   * Applying a selection and binding the reported string back as the value
   * selects the same day again (years from 100 on).
   */
  lemma ApplyThenSync(d: Date)
    requires ValidDate(d) && d.year >= 100
    ensures ValueDay(Some(FormatLocalYMD(d))) == Some(d)
  {
    ParseFormat(d, d);
    FormatFields(d);
  }
}
