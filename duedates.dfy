/** Next-payment due dates (app2.py, `calculate_due_date` and the inline
    computation in `main`). `calculate_due_date` goes through a pandas
    Timestamp, so dates outside the Timestamp bounds fail there; the inline
    computation works on a Python `date`. */
module DueDates {
  import opened Wrappers
  import opened Calendar
  import opened IsoDate
  import opened Cells

  /** The day numbers of the first and last midnight a nanosecond-resolution
      pandas Timestamp holds, 1677-09-22 and 2262-04-11 (see TimestampBounds). */
  const FirstTimestampDay := 612411
  const LastTimestampDay := 825913

  lemma TimestampBounds()
    ensures FirstTimestampDay == DayNumber(Date(1677, 9, 22))
    ensures LastTimestampDay == DayNumber(Date(2262, 4, 11))
    ensures 0 <= FirstTimestampDay <= LastTimestampDay <= MaxDayNumber
  {
  }

  predicate InTimestampRange(d: Date)
  {
    ValidDate(d) && FirstTimestampDay <= DayNumber(d) <= LastTimestampDay
  }

  /** `pd.to_datetime` on text: None where it raises, on text that is not an
      ISO date or that names a date outside the Timestamp bounds. */
  function ToTimestamp(s: string): (r: Option<Date>)
    ensures r.Some? ==> InTimestampRange(r.value) && s == Format(r.value)
  {
    match Parse(s)
    case Some(d) =>
      FormatParse(s);
      if InTimestampRange(d) then Some(d) else None
    case None => None
  }

  /** Conversely, the ISO text of every date inside the bounds converts. */
  lemma ToTimestampOfFormat(d: Date)
    requires InTimestampRange(d)
    ensures ToTimestamp(Format(d)) == Some(d)
  {
    ParseFormat(d);
  }

  /** The guard `pd.isna(x) or x == ""` followed by the conversion inside the
      `try`: the date a cell holds, or None where the source gives up. */
  function CellDate(c: Cell): (r: Option<Date>)
    ensures r.Some? ==> InTimestampRange(r.value) && c == Text(Format(r.value))
  {
    match c
    case Missing => None
    case Text(s) => if s == "" then None else ToTimestamp(s)
  }

  /** Conversely, a cell holding the ISO text of a date inside the bounds yields that date. */
  lemma CellDateOfFormat(d: Date)
    requires InTimestampRange(d)
    ensures CellDate(Text(Format(d))) == Some(d)
  {
    ToTimestampOfFormat(d);
  }

  /** `calculate_due_date`: the ISO text of the previous payment date plus
      `frequencyDays` days, or "" when the date is missing, does not parse,
      or the sum leaves the Timestamp bounds. */
  function CalculateDueDate(previous: Cell, frequencyDays: int): (r: string)
    ensures r != "" ==>
      && CellDate(previous).Some?
      && ToTimestamp(r).Some?
      && DayNumber(ToTimestamp(r).value) == DayNumber(CellDate(previous).value) + frequencyDays
    ensures r == "" ==>
      || CellDate(previous).None?
      || !(FirstTimestampDay <= DayNumber(CellDate(previous).value) + frequencyDays <= LastTimestampDay)
  {
    match CellDate(previous)
    case None => ""
    case Some(p) =>
      match AddDays(p, frequencyDays)
      case None => ""
      case Some(e) =>
        if InTimestampRange(e) then
          ParseFormat(e);
          Format(e)
        else ""
  }

  /** On a date in range, the due date is the text of that date advanced by exactly the frequency. */
  lemma CalculateDueDateOfDate(previous: Date, frequencyDays: int, due: Date)
    requires InTimestampRange(previous) && InTimestampRange(due)
    requires AddDays(previous, frequencyDays) == Some(due)
    ensures CalculateDueDate(Text(Format(previous)), frequencyDays) == Format(due)
  {
    ParseFormat(previous);
  }

  lemma CalculateDueDateNoPrevious(frequencyDays: int)
    ensures CalculateDueDate(Missing, frequencyDays) == ""
    ensures CalculateDueDate(Text(""), frequencyDays) == ""
  {
  }

  /** A sum past the last Timestamp (or before the first) gives "": the
      OverflowError is swallowed. */
  lemma CalculateDueDateOutOfRange(previous: Date, frequencyDays: int)
    requires InTimestampRange(previous)
    requires !(FirstTimestampDay <= DayNumber(previous) + frequencyDays <= LastTimestampDay)
    ensures CalculateDueDate(Text(Format(previous)), frequencyDays) == ""
  {
    ParseFormat(previous);
  }

  datatype DateError = OverflowError

  /** The inline computation in `main`: `date + timedelta(days=f)` formatted
      with `strftime("%Y-%m-%d")`, "" when no date was picked, and the
      uncaught OverflowError past 9999-12-31. */
  function InlineDueDate(previous: Option<Date>, frequencyDays: int): (r: Result<string, DateError>)
    requires previous.Some? ==> ValidDate(previous.value)
    ensures r.Failure? <==> previous.Some? && AddDays(previous.value, frequencyDays).None?
    ensures r == Success("") <==> previous.None?
    ensures r.Success? && previous.Some? ==> Parse(r.value) == AddDays(previous.value, frequencyDays)
  {
    match previous
    case None => Success("")
    case Some(p) =>
      match AddDays(p, frequencyDays)
      case None => Failure(OverflowError)
      case Some(e) =>
        ParseFormat(e);
        Success(Format(e))
  }

  /** Inside the Timestamp bounds the inline computation and `calculate_due_date` agree. */
  lemma InlineAgreesWithCalculate(previous: Date, frequencyDays: int)
    requires InTimestampRange(previous)
    requires FirstTimestampDay <= DayNumber(previous) + frequencyDays <= LastTimestampDay
    ensures InlineDueDate(Some(previous), frequencyDays) == Success(CalculateDueDate(Text(Format(previous)), frequencyDays))
  {
    ParseFormat(previous);
    assert CellDate(Text(Format(previous))) == Some(previous);
    var due := AddDays(previous, frequencyDays);
    assert due.Some? && InTimestampRange(due.value);
  }

  /** Before the first Timestamp the two disagree: the inline computation
      still produces a date where `calculate_due_date` gives "". */
  lemma InlineDiffersBeforeTimestampRange(previous: Date, frequencyDays: int, due: Date)
    requires ValidDate(previous) && DayNumber(previous) < FirstTimestampDay
    requires AddDays(previous, frequencyDays) == Some(due)
    ensures InlineDueDate(Some(previous), frequencyDays) == Success(Format(due))
    ensures CalculateDueDate(Text(Format(previous)), frequencyDays) == ""
  {
    ParseFormat(previous);
    assert !InTimestampRange(previous);
    assert ToTimestamp(Format(previous)).None?;
    assert CellDate(Text(Format(previous))).None?;
  }
}
