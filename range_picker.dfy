/**
 * The two-click date-range selector: a pop-up with two month grids, a
 * selection { start, end } filled by clicks, and Clear / Cancel / Apply
 * buttons. Applying or clearing reports a range through `onApply`, kept here
 * as the log `applied`.
 */
module RangePicker {
  import opened Wrappers
  import opened Strings
  import opened Calendar
  import opened Types

  /** Spanish month names as the grid header shows them. */
  const Months: seq<string> := ["enero", "febrero", "marzo", "abril", "mayo", "junio", "julio",
                                "agosto", "septiembre", "octubre", "noviembre", "diciembre"]

  /** The nothing-selected range `{ start: null, end: null }`. */
  const Empty: DateRange := DateRange(None, None)

  /** An end is only ever set after a start, and never lies before it. */
  predicate Ordered(sel: DateRange) {
    (sel.end.Some? ==> sel.start.Some?)
    && (sel.start.Some? && sel.end.Some? ==> !Before(sel.end.value, sel.start.value))
  }

  /** Both ends, where set, are real calendar days. */
  predicate ValidRange(sel: DateRange) {
    (sel.start.Some? ==> ValidDate(sel.start.value)) && (sel.end.Some? ==> ValidDate(sel.end.value))
  }

  /**
   * `handleDateClick`: with no start, or with both ends set, the click starts
   * a new range; otherwise it completes the range, the earlier day first.
   */
  function Click(sel: DateRange, d: Date): (r: DateRange)
    ensures r.start.Some?
    ensures sel.start.None? || sel.end.Some? ==> r == DateRange(Some(d), None)
    ensures sel.start.Some? && sel.end.None? ==>
      r.end.Some? && {r.start.value, r.end.value} == {sel.start.value, d}
      && !Before(r.end.value, r.start.value)
    ensures sel.start.Some? && sel.end.None? && d == sel.start.value ==> r == DateRange(Some(d), Some(d))
  {
    if sel.start.None? || sel.end.Some? then DateRange(Some(d), None)
    else if Before(d, sel.start.value) then DateRange(Some(d), sel.start)
    else DateRange(sel.start, Some(d))
  }

  /** A second click before the start swaps the ends, any other second click becomes the end. */
  lemma SecondClick(s: Date, d: Date)
    ensures Before(d, s) ==> Click(DateRange(Some(s), None), d) == DateRange(Some(d), Some(s))
    ensures !Before(d, s) ==> Click(DateRange(Some(s), None), d) == DateRange(Some(s), Some(d))
  {
  }

  /** A sequence of clicks, one after another, from a given selection. */
  function Clicks(sel: DateRange, ds: seq<Date>): DateRange
    decreases |ds|
  {
    if ds == [] then sel else Clicks(Click(sel, ds[0]), ds[1..])
  }

  /** Whatever days are clicked, starting from the empty selection, the selection stays ordered. */
  lemma {:induction false} ClicksOrdered(sel: DateRange, ds: seq<Date>)
    requires Ordered(sel)
    ensures Ordered(Clicks(sel, ds))
    decreases |ds|
  {
    if ds != [] {
      var next := Click(sel, ds[0]);
      assert Ordered(next) by {
        if sel.start.Some? && sel.end.None? {
          assert {next.start.value, next.end.value} == {sel.start.value, ds[0]};
        }
      }
      ClicksOrdered(next, ds[1..]);
    }
  }

  /** Three clicks always leave a freshly started range: the third one resets. */
  lemma ThirdClickResets(a: Date, b: Date, c: Date)
    ensures Clicks(Empty, [a, b, c]) == DateRange(Some(c), None)
  {
    var s1 := Click(Empty, a);
    var s2 := Click(s1, b);
    assert s2.end.Some?;
    assert [a, b, c][1..] == [b, c] && [b, c][1..] == [c] && [c][1..] == [];
    assert Clicks(Empty, [a, b, c]) == Clicks(s1, [b, c]) == Clicks(s2, [c]) == Clicks(Click(s2, c), []);
  }

  /** `isSelected`: the day is the start's or the end's calendar day. */
  predicate IsSelected(sel: DateRange, d: Date) {
    (sel.start.Some? && d == sel.start.value) || (sel.end.Some? && d == sel.end.value)
  }

  /** `isInRange`: both ends set and the day strictly between them. */
  predicate IsInRange(sel: DateRange, d: Date) {
    if sel.start.None? || sel.end.None? then false
    else Before(sel.start.value, d) && Before(d, sel.end.value)
  }

  /**
   * For valid days, the range is the open interval of day numbers, so a day
   * is never both an end and in range.
   */
  lemma InRangeStrict(sel: DateRange, d: Date)
    requires sel.start.Some? ==> ValidDate(sel.start.value)
    requires sel.end.Some? ==> ValidDate(sel.end.value)
    requires ValidDate(d)
    ensures IsInRange(sel, d) <==>
      sel.start.Some? && sel.end.Some?
      && DayNumber(sel.start.value) < DayNumber(d) < DayNumber(sel.end.value)
    ensures IsInRange(sel, d) ==> !IsSelected(sel, d)
  {
    if sel.start.Some? && sel.end.Some? {
      BeforeIffDayNumber(sel.start.value, d);
      BeforeIffDayNumber(d, sel.end.value);
    }
  }

  /**
   * Once a range is complete and ordered, each day falls in exactly one
   * place: before it, on an end, strictly inside, or after it.
   */
  lemma RangePartition(sel: DateRange, d: Date)
    requires Ordered(sel) && sel.start.Some? && sel.end.Some?
    ensures Before(d, sel.start.value) || IsSelected(sel, d) || IsInRange(sel, d) || Before(sel.end.value, d)
    ensures Before(d, sel.start.value) ==> !IsSelected(sel, d) && !IsInRange(sel, d) && !Before(sel.end.value, d)
    ensures Before(sel.end.value, d) ==> !IsSelected(sel, d) && !IsInRange(sel, d)
  {
  }

  /** `months[m].substring(0, 3)`. */
  function Abbrev(month: int): (a: string)
    requires 0 <= month < 12
    ensures |a| == 3 && ' ' !in a
  {
    Months[month][..3]
  }

  /** `fmt(d)`: day of the month, a space, the month's first three letters, a dot. */
  function Fmt(d: Date): string
    requires 0 <= d.month < 12
  {
    IntToString(d.day) + " " + Abbrev(d.month) + "."
  }

  /** The button label for the current selection. */
  function Label(sel: DateRange): string
    requires sel.start.Some? ==> 0 <= sel.start.value.month < 12
    requires sel.end.Some? ==> 0 <= sel.end.value.month < 12
  {
    if sel.start.None? then "Seleccionar fechas"
    else if sel.end.None? then Fmt(sel.start.value)
    else Fmt(sel.start.value) + " - " + Fmt(sel.end.value) + " " + IntToString(sel.end.value.year)
  }

  lemma AbbrevDistinct(m1: int, m2: int)
    requires 0 <= m1 < 12 && 0 <= m2 < 12 && m1 != m2
    ensures Abbrev(m1) != Abbrev(m2)
  {
    var table := ["ene", "feb", "mar", "abr", "may", "jun", "jul", "ago", "sep", "oct", "nov", "dic"];
    assert forall m :: 0 <= m < 12 ==> Abbrev(m) == table[m];
  }

  lemma {:induction false} NatToStringInjective(a: nat, b: nat)
    requires NatToString(a) == NatToString(b)
    ensures a == b
  {
    DigitsOfNat(a);
    DigitsOfNat(b);
  }

  /** A one-day label splits at the space into the day's digits and the abbreviated month. */
  lemma FmtParts(d: Date)
    requires ValidDate(d)
    ensures Split(Fmt(d), ' ') == [NatToString(d.day), Abbrev(d.month) + "."]
  {
    var ds := NatToString(d.day);
    var ms := Abbrev(d.month) + ".";
    assert ' ' !in ds by {
      assert forall i :: 0 <= i < |ds| ==> IsDigit(ds[i]);
    }
    assert Fmt(d) == ds + [' '] + ms;
    SplitFirst(ds, ' ', ms);
    SplitNoSeparator(ms, ' ');
  }

  /** Different days of the year get different one-day labels. */
  lemma FmtInjective(a: Date, b: Date)
    requires ValidDate(a) && ValidDate(b)
    requires Fmt(a) == Fmt(b)
    ensures a.day == b.day && a.month == b.month
  {
    FmtParts(a);
    FmtParts(b);
    assert NatToString(a.day) == NatToString(b.day);
    NatToStringInjective(a.day, b.day);
    assert Abbrev(a.month) == (Abbrev(a.month) + ".")[..3];
    assert Abbrev(b.month) == (Abbrev(b.month) + ".")[..3];
    if a.month != b.month {
      AbbrevDistinct(a.month, b.month);
    }
  }

  lemma NoSpaceInDigits(s: string)
    requires AllDigits(s)
    ensures ' ' !in s
  {
  }

  /**
   * Split at spaces, the label of a started range is "D mmm." and that of a
   * complete range "D mmm. - D mmm. YYYY", the year being the end's.
   */
  lemma LabelFields(sel: DateRange)
    requires sel.start.Some? && ValidDate(sel.start.value)
    requires sel.end.Some? ==> ValidDate(sel.end.value) && sel.end.value.year >= 0
    ensures sel.end.None? ==>
      Split(Label(sel), ' ') == [NatToString(sel.start.value.day), Abbrev(sel.start.value.month) + "."]
    ensures sel.end.Some? ==>
      Split(Label(sel), ' ') ==
        [NatToString(sel.start.value.day), Abbrev(sel.start.value.month) + ".", "-",
         NatToString(sel.end.value.day), Abbrev(sel.end.value.month) + ".", NatToString(sel.end.value.year)]
  {
    var s := sel.start.value;
    FmtParts(s);
    if sel.end.Some? {
      var e := sel.end.value;
      var d1 := NatToString(s.day);
      var m1 := Abbrev(s.month) + ".";
      var d2 := NatToString(e.day);
      var m2 := Abbrev(e.month) + ".";
      var ys := NatToString(e.year);
      NoSpaceInDigits(d1);
      NoSpaceInDigits(d2);
      NoSpaceInDigits(ys);
      assert Fmt(s) == d1 + " " + m1;
      assert Fmt(e) == d2 + " " + m2;
      Regroup(d1, m1, d2, m2, ys);
      SplitSix(d1, m1, "-", d2, m2, ys, ' ');
    }
  }

  lemma SplitSix(a: string, b: string, c: string, d: string, e: string, f: string, sep: char)
    requires sep !in a && sep !in b && sep !in c && sep !in d && sep !in e && sep !in f
    ensures Split(a + [sep] + (b + [sep] + (c + [sep] + (d + [sep] + (e + [sep] + f)))), sep) == [a, b, c, d, e, f]
  {
    SplitNoSeparator(f, sep);
    SplitFirst(e, sep, f);
    SplitFirst(d, sep, e + [sep] + f);
    SplitFirst(c, sep, d + [sep] + (e + [sep] + f));
    SplitFirst(b, sep, c + [sep] + (d + [sep] + (e + [sep] + f)));
    SplitFirst(a, sep, b + [sep] + (c + [sep] + (d + [sep] + (e + [sep] + f))));
  }

  lemma Regroup(d1: string, m1: string, d2: string, m2: string, ys: string)
    ensures (d1 + " " + m1) + " - " + (d2 + " " + m2) + " " + ys
      == d1 + [' '] + (m1 + [' '] + ("-" + [' '] + (d2 + [' '] + (m2 + [' '] + ys))))
  {
  }

  /** The label shows "Seleccionar fechas" exactly when no start is chosen. */
  lemma LabelPlaceholder(sel: DateRange)
    requires sel.start.Some? ==> ValidDate(sel.start.value)
    requires sel.end.Some? ==> ValidDate(sel.end.value)
    ensures Label(sel) == "Seleccionar fechas" <==> sel.start.None?
  {
    if sel.start.Some? {
      var f := Fmt(sel.start.value);
      var ds := NatToString(sel.start.value.day);
      assert f[0] == ds[0];
      assert IsDigit(ds[0]);
      assert Label(sel)[0] == f[0];
    }
  }

  class DateRangePicker {
    var isOpen: bool
    var viewDate: Date
    var selection: DateRange
    /** The ranges passed to `onApply`, oldest first. */
    var applied: seq<DateRange>

    ghost predicate Valid()
      reads this
    {
      ValidDate(viewDate) && viewDate.day == 1 && Ordered(selection) && ValidRange(selection)
    }

    /** Closed, showing the month of `today`, nothing selected. */
    constructor(today: Date)
      requires ValidDate(today)
      ensures Valid()
      ensures !isOpen && viewDate == FirstOfMonth(today) && selection == Empty && applied == []
    {
      var first := FirstOfMonth(today);
      assert ValidDate(first) && first.day == 1;
      isOpen := false;
      viewDate := first;
      selection := Empty;
      applied := [];
    }

    /** The second grid: `nextMonthDate`. */
    function SecondMonth(): (d: Date)
      reads this
      requires Valid()
      ensures ValidDate(d) && d.day == 1
      ensures !(0 <= viewDate.year <= 99) ==>
        d == Date(NextOf(viewDate.year, viewDate.month).0, NextOf(viewDate.year, viewDate.month).1, 1)
        && DayNumber(d) == DayNumber(viewDate) + MonthLength(viewDate.year, viewDate.month)
    {
      NextFirstDay(viewDate.year, viewDate.month);
      NextMonth(viewDate)
    }

    /** The label button toggles the pop-up. */
    method Toggle()
      modifies this
      ensures isOpen == !old(isOpen)
      ensures viewDate == old(viewDate) && selection == old(selection) && applied == old(applied)
    {
      isOpen := !isOpen;
    }

    method HandleDateClick(d: Date)
      requires Valid() && ValidDate(d)
      modifies this
      ensures Valid()
      ensures selection == Click(old(selection), d)
      ensures isOpen == old(isOpen) && viewDate == old(viewDate) && applied == old(applied)
    {
      ClicksOrdered(selection, [d]);
      assert Clicks(selection, [d]) == Click(selection, d);
      var next := Click(selection, d);
      if selection.start.Some? && selection.end.None? {
        assert {next.start.value, next.end.value} == {selection.start.value, d};
      }
      selection := next;
    }

    /** The left arrow: the first of the previous month. */
    method ShowPreviousMonth()
      requires Valid()
      modifies this
      ensures Valid()
      ensures viewDate == PrevMonth(old(viewDate))
      ensures isOpen == old(isOpen) && selection == old(selection) && applied == old(applied)
    {
      viewDate := PrevMonth(viewDate);
    }

    /** The right arrow: the first of the next month. */
    method ShowNextMonth()
      requires Valid()
      modifies this
      ensures Valid()
      ensures viewDate == NextMonth(old(viewDate))
      ensures isOpen == old(isOpen) && selection == old(selection) && applied == old(applied)
    {
      viewDate := NextMonth(viewDate);
    }

    /** "Limpiar": the selection is emptied, the empty range reported, the pop-up closed. */
    method Clear()
      requires Valid()
      modifies this
      ensures Valid()
      ensures selection == Empty && applied == old(applied) + [Empty] && !isOpen
      ensures viewDate == old(viewDate)
    {
      selection := Empty;
      applied := applied + [Empty];
      isOpen := false;
    }

    /** "Aplicar Rango": the selection is reported as it stands and the pop-up closed. */
    method Apply()
      requires Valid()
      modifies this
      ensures Valid()
      ensures applied == old(applied) + [old(selection)] && !isOpen
      ensures selection == old(selection) && viewDate == old(viewDate)
    {
      applied := applied + [selection];
      isOpen := false;
    }

    /** "Cancelar" and a click on the backdrop: closed, nothing reported, nothing else changed. */
    method Cancel()
      modifies this
      ensures !isOpen
      ensures selection == old(selection) && viewDate == old(viewDate) && applied == old(applied)
    {
      isOpen := false;
    }
  }
}
