/** `get_payment_status` (app2.py): the label of a due-date cell relative to
    today's date, which the caller supplies instead of the clock. */
module Status {
  import opened Wrappers
  import opened Calendar
  import opened IsoDate
  import opened Cells
  import opened DueDates

  datatype PaymentStatus = Unknown | Overdue | DueToday | DueSoon | Upcoming

  /** A due date at most this many days ahead is "Due Soon". */
  const DueSoonDays := 7

  /** The text the table stores for a status: never the empty text that
      `get_payment_status` reads as a missing date. */
  function Label(s: PaymentStatus): (r: string)
    ensures r != ""
  {
    match s
    case Unknown => "Unknown"
    case Overdue => "Overdue"
    case DueToday => "Due Today"
    case DueSoon => "Due Soon"
    case Upcoming => "Upcoming"
  }

  /** Reads a stored label back; None for any other cell. */
  function StatusOfLabel(c: Cell): (r: Option<PaymentStatus>)
    ensures r.Some? ==> c == Text(Label(r.value))
  {
    if c == Text("Unknown") then Some(Unknown)
    else if c == Text("Overdue") then Some(Overdue)
    else if c == Text("Due Today") then Some(DueToday)
    else if c == Text("Due Soon") then Some(DueSoon)
    else if c == Text("Upcoming") then Some(Upcoming)
    else None
  }

  /** The five labels are distinct: a stored label names exactly one status. */
  lemma LabelRoundTrip(s: PaymentStatus)
    ensures StatusOfLabel(Text(Label(s))) == Some(s)
  {
  }

  /** The status of a due-date cell on the given day: Unknown when the cell
      is missing, empty or not a date (or the day is not a Timestamp), and
      otherwise by the number of days from today to the due date. */
  function GetPaymentStatus(due: Cell, today: Date): (r: PaymentStatus)
    requires ValidDate(today)
    ensures r == Unknown <==> CellDate(due).None? || !InTimestampRange(today)
  {
    match CellDate(due)
    case None => Unknown
    case Some(d) =>
      if !InTimestampRange(today) then Unknown
      else if DayNumber(d) < DayNumber(today) then Overdue
      else if DayNumber(d) == DayNumber(today) then DueToday
      else if DayNumber(d) - DayNumber(today) <= DueSoonDays then DueSoon
      else Upcoming
  }

  /** For a due date that parses, the four dated statuses partition the
      calendar: before today, today, within the next seven days, later. */
  lemma StatusPartition(due: Cell, today: Date, d: Date)
    requires InTimestampRange(today) && CellDate(due) == Some(d)
    ensures AddDays(today, DueSoonDays).Some?
    ensures GetPaymentStatus(due, today) == Overdue <==> Before(d, today)
    ensures GetPaymentStatus(due, today) == DueToday <==> d == today
    ensures GetPaymentStatus(due, today) == DueSoon <==>
      Before(today, d) && !Before(AddDays(today, DueSoonDays).value, d)
    ensures GetPaymentStatus(due, today) == Upcoming <==> Before(AddDays(today, DueSoonDays).value, d)
  {
    assert 0 <= DayNumber(today) + DueSoonDays <= MaxDayNumber;
    var week := AddDays(today, DueSoonDays).value;
    assert DayNumber(week) == DayNumber(today) + DueSoonDays;
    var r := GetPaymentStatus(due, today);
    assert r == Overdue <==> DayNumber(d) < DayNumber(today);
    assert r == DueToday <==> DayNumber(d) == DayNumber(today);
    assert r == DueSoon <==> DayNumber(today) < DayNumber(d) <= DayNumber(week);
    DayNumberOrder(d, today);
    DayNumberOrder(today, d);
    DayNumberOrder(week, d);
  }

  /** The status of a due date written as ISO text, read off the day numbers. */
  lemma StatusOfDayNumbers(today: Date, due: Date)
    requires InTimestampRange(today) && InTimestampRange(due)
    ensures GetPaymentStatus(Text(Format(due)), today) ==
      if DayNumber(due) < DayNumber(today) then Overdue
      else if DayNumber(due) == DayNumber(today) then DueToday
      else if DayNumber(due) <= DayNumber(today) + DueSoonDays then DueSoon
      else Upcoming
  {
    ParseFormat(due);
  }

  /** The status of the date k days after today, written as ISO text. */
  lemma StatusOfOffset(today: Date, k: int, due: Date)
    requires InTimestampRange(today) && InTimestampRange(due)
    requires AddDays(today, k) == Some(due)
    ensures GetPaymentStatus(Text(Format(due)), today) ==
      if k < 0 then Overdue
      else if k == 0 then DueToday
      else if k <= DueSoonDays then DueSoon
      else Upcoming
  {
    assert DayNumber(due) == DayNumber(today) + k;
    StatusOfDayNumbers(today, due);
  }

  /** The boundary of the window: seven days ahead is Due Soon, eight is Upcoming. */
  lemma DueSoonBoundary(today: Date, seventh: Date, eighth: Date)
    requires InTimestampRange(today) && InTimestampRange(eighth)
    requires AddDays(today, 7) == Some(seventh) && AddDays(today, 8) == Some(eighth)
    ensures GetPaymentStatus(Text(Format(seventh)), today) == DueSoon
    ensures GetPaymentStatus(Text(Format(eighth)), today) == Upcoming
  {
    assert InTimestampRange(seventh);
    StatusOfOffset(today, 7, seventh);
    StatusOfOffset(today, 8, eighth);
  }

  /** A missing, empty or unparsable due date is Unknown. */
  lemma StatusOfNoDate(today: Date, y: int, m: int, d: int)
    requires ValidDate(today)
    requires 0 <= y <= 9999 && 0 <= m <= 99 && 0 <= d <= 99 && !ValidDate(Date(y, m, d))
    ensures GetPaymentStatus(Missing, today) == Unknown
    ensures GetPaymentStatus(Text(""), today) == Unknown
    ensures GetPaymentStatus(Text(FourDigits(y) + "-" + TwoDigits(m) + "-" + TwoDigits(d)), today) == Unknown
  {
    ParseRejectsInvalidDate(y, m, d);
  }

  /** With today = 2024-06-10: 06-09 is Overdue, 06-10 Due Today, 06-15 Due Soon, 06-20 Upcoming. */
  lemma StatusExamples()
    ensures GetPaymentStatus(Text(Format(Date(2024, 6, 9))), Date(2024, 6, 10)) == Overdue
    ensures GetPaymentStatus(Text(Format(Date(2024, 6, 10))), Date(2024, 6, 10)) == DueToday
    ensures GetPaymentStatus(Text(Format(Date(2024, 6, 15))), Date(2024, 6, 10)) == DueSoon
    ensures GetPaymentStatus(Text(Format(Date(2024, 6, 20))), Date(2024, 6, 10)) == Upcoming
  {
    var today := Date(2024, 6, 10);
    assert DayNumber(today) == 739046;
    SameMonth(2024, 6, 10, 9);
    SameMonth(2024, 6, 10, 15);
    SameMonth(2024, 6, 10, 20);
    StatusOfDayNumbers(today, Date(2024, 6, 9));
    StatusOfDayNumbers(today, today);
    StatusOfDayNumbers(today, Date(2024, 6, 15));
    StatusOfDayNumbers(today, Date(2024, 6, 20));
  }
}
