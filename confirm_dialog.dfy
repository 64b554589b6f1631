/** The dialog that confirms a termination: it asks for the last working
    day, prefilled with today's date, and hands a non-blank date on. The
    browser clock is a parameter. */
module ConfirmDialog {
  import opened Wrappers
  import opened Text

  /** A day as the browser's local clock reports it: the full year, the
      month counted from 0, and the day of the month. */
  datatype Today = Today(year: nat, month: nat, day: nat)

  predicate ValidToday(t: Today) {
    t.month < 12 && 1 <= t.day <= 31
  }

  const DateRequired: string := "Ngày nghỉ việc là bắt buộc."

  /** A number of at most two digits, padded to two with '0'. */
  function TwoDigits(n: nat): string
    requires n < 100
  {
    PadStart(NatToString(n), 2, '0')
  }

  /** The two digits read back as the number. */
  lemma TwoDigitsParse(n: nat)
    requires n < 100
    ensures var r := TwoDigits(n); |r| == 2 && AllDigits(r) && ParseNat(r) == n
  {
    var s := NatToString(n);
    ParseNatToString(n);
    if n < 10 {
      assert |s| == 1;
      assert PadStart(s, 2, '0') == "0" + s;
      ParseNatLeadingZero(s);
    } else {
      assert |s| == 2 by { assert |NatToString(n / 10)| == 1; }
    }
  }

  /** `getTodayDateString`: `YYYY-MM-DD` with the month counted from 1. */
  function TodayDateString(t: Today): string
    requires ValidToday(t)
  {
    NatToString(t.year) + "-" + TwoDigits(t.month + 1) + "-" + TwoDigits(t.day)
  }

  /** The year, a dash, the two-digit month counted from 1, a dash and the
      two-digit day. */
  lemma TodayDateShape(t: Today)
    requires ValidToday(t)
    ensures var r := TodayDateString(t);
      |r| == |NatToString(t.year)| + 6 && r[..|r| - 6] == NatToString(t.year) &&
      r[|r| - 6] == '-' && r[|r| - 3] == '-' &&
      r[|r| - 5..|r| - 3] == TwoDigits(t.month + 1) && r[|r| - 2..] == TwoDigits(t.day)
  {
    TwoDigitsParse(t.month + 1);
    TwoDigitsParse(t.day);
    DashedShape(NatToString(t.year), TwoDigits(t.month + 1), TwoDigits(t.day));
  }

  /** Where the parts of `y-mm-dd` sit, for any parts with two-character
      month and day. */
  lemma DashedShape(y: string, m: string, d: string)
    requires |m| == 2 && |d| == 2
    ensures var r := y + "-" + m + "-" + d;
      |r| == |y| + 6 && r[..|r| - 6] == y &&
      r[|r| - 6] == '-' && r[|r| - 3] == '-' &&
      r[|r| - 5..|r| - 3] == m && r[|r| - 2..] == d
  {
    var r := y + "-" + m + "-" + d;
    assert r[..|y|] == y;
    assert r[|y| + 1..|y| + 3] == m;
    assert r[|y| + 4..] == d;
  }

  /** Reading a `YYYY-MM-DD` string back into year, month and day. */
  function ParseDateString(s: string): (r: Option<(nat, nat, nat)>)
    ensures r.Some? ==> |s| >= 7 && s[|s| - 6] == '-' && s[|s| - 3] == '-'
  {
    if |s| >= 7 && s[|s| - 6] == '-' && s[|s| - 3] == '-' &&
       AllDigits(s[..|s| - 6]) && AllDigits(s[|s| - 5..|s| - 3]) && AllDigits(s[|s| - 2..])
    then Some((ParseNat(s[..|s| - 6]), ParseNat(s[|s| - 5..|s| - 3]), ParseNat(s[|s| - 2..])))
    else None
  }

  /** Today's string reads back as the year, the month counted from 1 and
      the day. */
  lemma TodayDateRoundTrip(t: Today)
    requires ValidToday(t)
    ensures ParseDateString(TodayDateString(t)) == Some((t.year, t.month + 1, t.day))
  {
    TodayDateShape(t);
    ParseNatToString(t.year);
    TwoDigitsParse(t.month + 1);
    TwoDigitsParse(t.day);
  }

  /** Today's string is never blank, so confirming it right away hands it on. */
  lemma TodayIsNotBlank(t: Today)
    requires ValidToday(t)
    ensures !IsBlank(TodayDateString(t))
  {
    TodayDateShape(t);
    var r := TodayDateString(t);
    assert r[0] == r[..|r| - 6][0];
    assert IsDigit(r[0]);
  }

  class ConfirmDialogView {
    var isOpen: bool
    var terminationDate: string
    var error: string

    /** The first render: today's date, no error, closed. */
    constructor(today: Today)
      requires ValidToday(today)
      ensures !isOpen && terminationDate == TodayDateString(today) && error == []
    {
      isOpen := false;
      terminationDate := TodayDateString(today);
      error := [];
    }

    /** A new value of the open flag: opening resets the date to today and
        clears the error; otherwise the fields are kept. */
    method SetOpen(open: bool, today: Today)
      requires ValidToday(today)
      modifies this
      ensures isOpen == open
      ensures open && !old(isOpen) ==> terminationDate == TodayDateString(today) && error == []
      ensures !(open && !old(isOpen)) ==> terminationDate == old(terminationDate) && error == old(error)
    {
      if open && !isOpen {
        terminationDate := TodayDateString(today);
        error := [];
      }
      isOpen := open;
    }

    /** Editing the date clears the error. Nothing is rendered while the
        dialog is closed, so it is open here. */
    method ChangeDate(value: string)
      requires isOpen
      modifies this
      ensures isOpen && terminationDate == value && error == []
    {
      terminationDate := value;
      error := [];
    }

    /** Confirm: a blank date shows the required message and hands nothing
        on; any other date is handed to `onSubmit` exactly as entered. */
    method Confirm() returns (submitted: Option<string>)
      requires isOpen
      modifies this
      ensures isOpen && terminationDate == old(terminationDate)
      ensures submitted.Some? <==> !IsBlank(terminationDate)
      ensures submitted.Some? ==> submitted.value == terminationDate && error == old(error)
      ensures submitted.None? ==> error == DateRequired
    {
      if IsBlank(terminationDate) {
        error := DateRequired;
        submitted := None;
      } else {
        submitted := Some(terminationDate);
      }
    }
  }
}
