/** The tenant history table of app2.py: an ordered sequence of rows over a
    list of named columns, loaded with a column migration (`load_history`),
    extended by one row per prediction, relabelled with fresh payment
    statuses, counted per status and shortened by positional deletion. */
module History {
  import opened Wrappers
  import opened Calendar
  import opened IsoDate
  import opened Cells
  import opened DueDates
  import opened Status

  /** One record: the value of each column, keyed by column name. */
  type Row = map<string, Cell>

  const NextDueColumn := "Next Payment Due Date"
  const StatusColumn := "Payment Status"

  /** The seventeen columns every history table has once it is loaded. */
  const RequiredColumns := [
    "BHK", "Size", "Bathroom", "Furnishing Status", "Tenant Preferred",
    "City", "Point of Contact", "Area Locality", "Posted On", "Area Type", "Floor", "Predicted Rent",
    "Tenant Name", "Telephone Number", "Previous Payment Date", NextDueColumn, StatusColumn
  ]

  function ColumnSet(columns: seq<string>): set<string>
  {
    set c | c in columns
  }

  predicate Distinct(columns: seq<string>)
  {
    forall i, j :: 0 <= i < j < |columns| ==> columns[i] != columns[j]
  }

  /** Column names are unique and each row has exactly the table's columns. */
  predicate WellFormedTable(columns: seq<string>, rows: seq<Row>)
  {
    Distinct(columns) && forall k :: 0 <= k < |rows| ==> rows[k].Keys == ColumnSet(columns)
  }

  /** The value of a column in a row; NaN where the row has no such column. */
  function CellAt(row: Row, column: string): Cell
  {
    if column in row then row[column] else Missing
  }

  /** The columns after the migration loop: each required column that is not
      yet present is appended, in the order of `required`. */
  function AddColumns(columns: seq<string>, required: seq<string>): (r: seq<string>)
    ensures |columns| <= |r| && r[..|columns|] == columns
    ensures forall c :: c in required ==> c in r
    ensures forall c :: c in r ==> c in columns || c in required
    ensures Distinct(columns) ==> Distinct(r)
    decreases |required|
  {
    if required == [] then columns
    else
      var next := if required[0] in columns then columns else columns + [required[0]];
      assert next[..|columns|] == columns;
      assert Distinct(columns) ==> Distinct(next);
      var r := AddColumns(next, required[1..]);
      assert r[..|columns|] == r[..|next|][..|columns|];
      assert required[0] in r by {
        assert required[0] in next;
        assert forall c :: c in next ==> c in r[..|next|];
      }
      assert forall c :: c in required ==> c == required[0] || c in required[1..];
      r
  }

  /** Every row with `column` set to `value`. */
  function WithColumn(rows: seq<Row>, column: string, value: Cell): (r: seq<Row>)
    ensures |r| == |rows|
    ensures forall k :: 0 <= k < |rows| ==> r[k].Keys == rows[k].Keys + {column} && r[k][column] == value
    ensures forall k, c :: 0 <= k < |rows| && c in rows[k] && c != column ==> r[k][c] == rows[k][c]
  {
    seq(|rows|, k requires 0 <= k < |rows| => rows[k][column := value])
  }

  /** `row` is `original` after the migration: the original columns keep
      their values and every added column holds "". */
  predicate MigratedRow(row: Row, original: Row)
  {
    && original.Keys <= row.Keys
    && (forall c :: c in original ==> row[c] == original[c])
    && (forall c :: c in row && c !in original ==> row[c] == Text(""))
  }

  predicate Migrated(rows: seq<Row>, original: seq<Row>)
  {
    |rows| == |original| && forall k :: 0 <= k < |rows| ==> MigratedRow(rows[k], original[k])
  }

  /** Adding a column that no original row has keeps the rows migrated. */
  lemma MigratedAddColumn(rows: seq<Row>, original: seq<Row>, column: string)
    requires Migrated(rows, original)
    requires forall k :: 0 <= k < |original| ==> column !in original[k]
    ensures Migrated(WithColumn(rows, column, Text("")), original)
  {
    var added := WithColumn(rows, column, Text(""));
    forall k | 0 <= k < |rows| ensures MigratedRow(added[k], original[k]) {
      assert added[k] == rows[k][column := Text("")];
    }
  }

  /** Adding a new column to every row keeps the table well formed. */
  lemma WellFormedAddColumn(columns: seq<string>, rows: seq<Row>, column: string, value: Cell)
    requires WellFormedTable(columns, rows) && column !in columns
    ensures WellFormedTable(columns + [column], WithColumn(rows, column, value))
  {
    assert ColumnSet(columns + [column]) == ColumnSet(columns) + {column};
  }

  /** One step of the migration loop: a column the table lacks, added to
      every row with "", keeps the table well formed and the rows migrated. */
  lemma MigrationStep(columns: seq<string>, rows: seq<Row>, original: seq<Row>, column: string)
    requires WellFormedTable(columns, rows) && Migrated(rows, original) && column !in columns
    ensures WellFormedTable(columns + [column], WithColumn(rows, column, Text("")))
    ensures Migrated(WithColumn(rows, column, Text("")), original)
  {
    forall k | 0 <= k < |original| ensures column !in original[k] {
      assert original[k].Keys <= rows[k].Keys == ColumnSet(columns);
    }
    MigratedAddColumn(rows, original, column);
    WellFormedAddColumn(columns, rows, column, Text(""));
  }

  /** The migration loop as a recursion over the required columns: the
      columns and rows after each missing column is added with "". */
  function Migrate(columns: seq<string>, rows: seq<Row>, required: seq<string>): (r: (seq<string>, seq<Row>))
    ensures |r.1| == |rows|
    decreases |required|
  {
    if required == [] then (columns, rows)
    else if required[0] in columns then Migrate(columns, rows, required[1..])
    else Migrate(columns + [required[0]], WithColumn(rows, required[0], Text("")), required[1..])
  }

  /** One turn of the loop at position i of the required columns. */
  lemma MigrateAt(columns: seq<string>, rows: seq<Row>, required: seq<string>, i: int)
    requires 0 <= i < |required|
    ensures Migrate(columns, rows, required[i..]) ==
      if required[i] in columns then Migrate(columns, rows, required[i + 1..])
      else Migrate(columns + [required[i]], WithColumn(rows, required[i], Text("")), required[i + 1..])
  {
    assert required[i..][0] == required[i] && required[i..][1..] == required[i + 1..];
  }

  /** The migration yields the columns of AddColumns, keeps the table well
      formed and the rows migrated. */
  lemma {:induction false} MigrateCorrect(columns: seq<string>, rows: seq<Row>, original: seq<Row>, required: seq<string>)
    requires WellFormedTable(columns, rows) && Migrated(rows, original)
    ensures Migrate(columns, rows, required).0 == AddColumns(columns, required)
    ensures WellFormedTable(Migrate(columns, rows, required).0, Migrate(columns, rows, required).1)
    ensures Migrated(Migrate(columns, rows, required).1, original)
    decreases |required|
  {
    if required != [] {
      var column := required[0];
      if column in columns {
        MigrateCorrect(columns, rows, original, required[1..]);
      } else {
        MigrationStep(columns, rows, original, column);
        MigrateCorrect(columns + [column], WithColumn(rows, column, Text("")), original, required[1..]);
      }
    }
  }

  /** An appended entry: its own values, NaN in the table's other columns
      (what `pd.concat(..., ignore_index=True)` produces). */
  function Conform(entry: Row, columns: seq<string>): (r: Row)
    requires entry.Keys <= ColumnSet(columns)
    ensures r.Keys == ColumnSet(columns)
    ensures forall c :: c in entry ==> r[c] == entry[c]
    ensures forall c :: c in r && c !in entry ==> r[c] == Missing
  {
    map c | c in ColumnSet(columns) :: CellAt(entry, c)
  }

  /** Every row with its status column overwritten by the status of its due date today. */
  function WithStatuses(rows: seq<Row>, today: Date): (r: seq<Row>)
    requires ValidDate(today)
    ensures |r| == |rows|
    ensures forall k :: 0 <= k < |rows| ==>
      StatusOfLabel(CellAt(r[k], StatusColumn)) == Some(GetPaymentStatus(CellAt(rows[k], NextDueColumn), today))
  {
    assert forall s :: StatusOfLabel(Text(Label(s))) == Some(s) by {
      forall s ensures StatusOfLabel(Text(Label(s))) == Some(s) {
        LabelRoundTrip(s);
      }
    }
    seq(|rows|, k requires 0 <= k < |rows| =>
      rows[k][StatusColumn := Text(Label(GetPaymentStatus(CellAt(rows[k], NextDueColumn), today)))])
  }

  /** The sequence without its element at position i; later elements move down by one. */
  function RemoveAt<T>(s: seq<T>, i: int): (r: seq<T>)
    requires 0 <= i < |s|
    ensures |r| == |s| - 1
    ensures forall k :: 0 <= k < i ==> r[k] == s[k]
    ensures forall k :: i <= k < |r| ==> r[k] == s[k + 1]
  {
    s[..i] + s[i + 1..]
  }

  /** Number of rows whose status cell holds the label of `status`. */
  function CountStatus(rows: seq<Row>, status: PaymentStatus): (n: nat)
    ensures n <= |rows|
  {
    if rows == [] then 0
    else
      CountStatus(rows[..|rows| - 1], status)
        + (if CellAt(rows[|rows| - 1], StatusColumn) == Text(Label(status)) then 1 else 0)
  }

  /** A label's count is zero exactly when no row holds that label. */
  lemma {:induction false} CountStatusZero(rows: seq<Row>, status: PaymentStatus)
    ensures CountStatus(rows, status) == 0 <==>
      forall k :: 0 <= k < |rows| ==> CellAt(rows[k], StatusColumn) != Text(Label(status))
  {
    if rows != [] {
      var init := rows[..|rows| - 1];
      assert forall k :: 0 <= k < |init| ==> init[k] == rows[k];
      CountStatusZero(init, status);
    }
  }

  /** Extending a prefix by one row adds one to the count of that row's label. */
  lemma CountStep(rows: seq<Row>, k: int, status: PaymentStatus)
    requires 0 <= k < |rows|
    ensures CountStatus(rows[..k + 1], status) == CountStatus(rows[..k], status)
      + (if StatusOfLabel(CellAt(rows[k], StatusColumn)) == Some(status) then 1 else 0)
  {
    assert rows[..k + 1][..k] == rows[..k];
    LabelRoundTrip(status);
  }

  /** `value_counts()` of the status column, read for every label. */
  datatype StatusSummary = StatusSummary(overdue: nat, dueSoon: nat, dueToday: nat, upcoming: nat, unknown: nat)
  {
    function Total(): nat
    {
      overdue + dueSoon + dueToday + upcoming + unknown
    }
  }

  predicate Labelled(row: Row)
  {
    StatusOfLabel(CellAt(row, StatusColumn)).Some?
  }

  /** Recomputing changes the status column and nothing else. */
  lemma RecomputeChangesOnlyStatus(rows: seq<Row>, today: Date)
    requires ValidDate(today)
    ensures |WithStatuses(rows, today)| == |rows|
    ensures forall k :: 0 <= k < |rows| ==> WithStatuses(rows, today)[k].Keys == rows[k].Keys + {StatusColumn}
    ensures forall k, c :: 0 <= k < |rows| && c != StatusColumn ==> CellAt(WithStatuses(rows, today)[k], c) == CellAt(rows[k], c)
    ensures forall k :: 0 <= k < |rows| ==>
      CellAt(WithStatuses(rows, today)[k], StatusColumn) == Text(Label(GetPaymentStatus(CellAt(rows[k], NextDueColumn), today)))
  {
  }

  /** Recomputing twice on the same day gives the same table as recomputing once. */
  lemma RecomputeIdempotent(rows: seq<Row>, today: Date)
    requires ValidDate(today)
    ensures WithStatuses(WithStatuses(rows, today), today) == WithStatuses(rows, today)
  {
    var once := WithStatuses(rows, today);
    var twice := WithStatuses(once, today);
    forall k | 0 <= k < |rows| ensures twice[k] == once[k] {
      assert CellAt(once[k], NextDueColumn) == CellAt(rows[k], NextDueColumn);
    }
  }

  /** After a recompute every row carries one of the five labels. */
  lemma RecomputeLabelsEveryRow(rows: seq<Row>, today: Date)
    requires ValidDate(today)
    ensures forall k :: 0 <= k < |rows| ==> Labelled(WithStatuses(rows, today)[k])
  {
    forall k | 0 <= k < |rows| ensures Labelled(WithStatuses(rows, today)[k]) {
      LabelRoundTrip(GetPaymentStatus(CellAt(rows[k], NextDueColumn), today));
    }
  }

  /** When every row is labelled, the five counts add up to the number of rows. */
  lemma {:induction false} CountsSumToRows(rows: seq<Row>)
    requires forall k :: 0 <= k < |rows| ==> Labelled(rows[k])
    ensures CountStatus(rows, Overdue) + CountStatus(rows, DueSoon) + CountStatus(rows, DueToday)
      + CountStatus(rows, Upcoming) + CountStatus(rows, Unknown) == |rows|
  {
    if rows != [] {
      var init := rows[..|rows| - 1];
      assert forall k :: 0 <= k < |init| ==> init[k] == rows[k];
      CountsSumToRows(init);
      var s := StatusOfLabel(CellAt(rows[|rows| - 1], StatusColumn)).value;
      LabelRoundTrip(s);
    }
  }

  /** After a recompute, the per-status counts cover every row exactly once. */
  lemma CountsAfterRecompute(rows: seq<Row>, today: Date)
    requires ValidDate(today)
    ensures var r := WithStatuses(rows, today);
      CountStatus(r, Overdue) + CountStatus(r, DueSoon) + CountStatus(r, DueToday)
        + CountStatus(r, Upcoming) + CountStatus(r, Unknown) == |rows|
  {
    RecomputeLabelsEveryRow(rows, today);
    CountsSumToRows(WithStatuses(rows, today));
  }

  /** The text fields of the prediction form that are copied into the history. */
  datatype PropertyDetails = PropertyDetails(
    bhk: string, size: string, bathroom: string, furnishingStatus: string, tenantPreferred: string,
    city: string, pointOfContact: string, areaLocality: string, postedOn: string, areaType: string,
    floor: string)

  /** The history entry built for one prediction. */
  function NewEntry(details: PropertyDetails, predictedRent: string, tenantName: string,
                    telephone: string, previous: string, nextDue: string, status: PaymentStatus): (r: Row)
    ensures r.Keys == ColumnSet(RequiredColumns)
    ensures CellAt(r, "Predicted Rent") == Text(predictedRent)
    ensures CellAt(r, "Tenant Name") == Text(tenantName) && CellAt(r, "Telephone Number") == Text(telephone)
    ensures CellAt(r, "Previous Payment Date") == Text(previous)
    ensures CellAt(r, NextDueColumn) == Text(nextDue)
    ensures CellAt(r, StatusColumn) == Text(Label(status))
  {
    map[
      "BHK" := Text(details.bhk), "Size" := Text(details.size), "Bathroom" := Text(details.bathroom),
      "Furnishing Status" := Text(details.furnishingStatus), "Tenant Preferred" := Text(details.tenantPreferred),
      "City" := Text(details.city), "Point of Contact" := Text(details.pointOfContact),
      "Area Locality" := Text(details.areaLocality), "Posted On" := Text(details.postedOn),
      "Area Type" := Text(details.areaType), "Floor" := Text(details.floor),
      "Predicted Rent" := Text(predictedRent), "Tenant Name" := Text(tenantName),
      "Telephone Number" := Text(telephone), "Previous Payment Date" := Text(previous),
      NextDueColumn := Text(nextDue), StatusColumn := Text(Label(status))
    ]
  }

  class HistoryTable {
    var columns: seq<string>
    var rows: seq<Row>

    /** Well formed, and every required column is present. */
    predicate Valid()
      reads this
    {
      WellFormedTable(columns, rows) && forall c :: c in RequiredColumns ==> c in columns
    }

    /** No history file: an empty table with the required columns. */
    constructor Empty()
      ensures Valid()
      ensures columns == RequiredColumns && rows == []
    {
      columns := RequiredColumns;
      rows := [];
    }

    /** A history file read from disk, then migrated to the required columns. */
    constructor Load(fileColumns: seq<string>, fileRows: seq<Row>)
      requires WellFormedTable(fileColumns, fileRows)
      ensures Valid()
      ensures columns == AddColumns(fileColumns, RequiredColumns)
      ensures Migrated(rows, fileRows)
    {
      columns := fileColumns;
      rows := fileRows;
      new;
      AddMissingColumns(RequiredColumns);
    }

    /** The loop over the required columns: each missing one is added and
        filled with "" in every row; existing columns keep their values. */
    method AddMissingColumns(required: seq<string>)
      requires WellFormedTable(columns, rows)
      modifies this
      ensures WellFormedTable(columns, rows)
      ensures columns == AddColumns(old(columns), required)
      ensures Migrated(rows, old(rows))
    {
      for i := 0 to |required|
        invariant Migrate(columns, rows, required[i..]) == Migrate(old(columns), old(rows), required)
      {
        var column := required[i];
        MigrateAt(columns, rows, required, i);
        if column !in columns {
          columns := columns + [column];
          rows := WithColumn(rows, column, Text(""));
        }
      }
      assert required[|required|..] == [];
      MigrateCorrect(old(columns), old(rows), old(rows), required);
    }

    /** `pd.concat` of one entry whose columns the table already has. */
    method Append(entry: Row)
      requires Valid() && entry.Keys <= ColumnSet(columns)
      modifies this
      ensures Valid() && columns == old(columns)
      ensures rows == old(rows) + [Conform(entry, columns)]
    {
      rows := rows + [Conform(entry, columns)];
    }

    /** The prediction button: the inline due date, its status today, and the
        new entry appended. Fails, leaving the table as it was, where the
        inline date computation raises OverflowError. */
    method RecordPrediction(details: PropertyDetails, predictedRent: string, tenantName: string,
                            telephone: string, previous: Date, frequencyDays: int, today: Date)
      returns (ok: bool)
      requires Valid() && ValidDate(previous) && ValidDate(today)
      modifies this
      ensures Valid() && columns == old(columns)
      ensures ok <==> AddDays(previous, frequencyDays).Some?
      ensures !ok ==> rows == old(rows)
      ensures ok ==> |rows| == |old(rows)| + 1 && rows[..|old(rows)|] == old(rows)
      ensures ok ==>
        var due := Format(AddDays(previous, frequencyDays).value);
        && CellAt(rows[|rows| - 1], "Previous Payment Date") == Text(Format(previous))
        && CellAt(rows[|rows| - 1], NextDueColumn) == Text(due)
        && CellAt(rows[|rows| - 1], StatusColumn) == Text(Label(GetPaymentStatus(Text(due), today)))
        && ColumnSet(RequiredColumns) <= ColumnSet(columns)
        && rows[|rows| - 1] == Conform(NewEntry(details, predictedRent, tenantName, telephone,
                                                Format(previous), due, GetPaymentStatus(Text(due), today)), columns)
    {
      var nextDue := InlineDueDate(Some(previous), frequencyDays);
      if nextDue.Failure? {
        return false;
      }
      var status := GetPaymentStatus(Text(nextDue.value), today);
      var entry := NewEntry(details, predictedRent, tenantName, telephone, Format(previous), nextDue.value, status);
      assert ColumnSet(RequiredColumns) <= ColumnSet(columns);
      Append(entry);
      assert rows[..|old(rows)|] == old(rows);
      ok := true;
    }

    /** The status column overwritten for every row, as of `today`. */
    method RecomputeStatuses(today: Date)
      requires Valid() && ValidDate(today)
      modifies this
      ensures Valid() && columns == old(columns)
      ensures rows == WithStatuses(old(rows), today)
    {
      if |rows| > 0 {
        RecomputeChangesOnlyStatus(rows, today);
        rows := WithStatuses(rows, today);
      }
    }

    /** The per-status counts of the dashboard. */
    method CountStatuses() returns (summary: StatusSummary)
      requires Valid()
      ensures summary.overdue == CountStatus(rows, Overdue)
      ensures summary.dueSoon == CountStatus(rows, DueSoon)
      ensures summary.dueToday == CountStatus(rows, DueToday)
      ensures summary.upcoming == CountStatus(rows, Upcoming)
      ensures summary.unknown == CountStatus(rows, Unknown)
      ensures (forall k :: 0 <= k < |rows| ==> Labelled(rows[k])) ==> summary.Total() == |rows|
    {
      summary := StatusSummary(0, 0, 0, 0, 0);
      for k := 0 to |rows|
        invariant summary.overdue == CountStatus(rows[..k], Overdue)
        invariant summary.dueSoon == CountStatus(rows[..k], DueSoon)
        invariant summary.dueToday == CountStatus(rows[..k], DueToday)
        invariant summary.upcoming == CountStatus(rows[..k], Upcoming)
        invariant summary.unknown == CountStatus(rows[..k], Unknown)
      {
        CountStep(rows, k, Overdue);
        CountStep(rows, k, DueSoon);
        CountStep(rows, k, DueToday);
        CountStep(rows, k, Upcoming);
        CountStep(rows, k, Unknown);
        match StatusOfLabel(CellAt(rows[k], StatusColumn))
        case Some(Overdue) => summary := summary.(overdue := summary.overdue + 1);
        case Some(DueSoon) => summary := summary.(dueSoon := summary.dueSoon + 1);
        case Some(DueToday) => summary := summary.(dueToday := summary.dueToday + 1);
        case Some(Upcoming) => summary := summary.(upcoming := summary.upcoming + 1);
        case Some(Unknown) => summary := summary.(unknown := summary.unknown + 1);
        case None =>
      }
      assert rows[..|rows|] == rows;
      if forall k :: 0 <= k < |rows| ==> Labelled(rows[k]) {
        CountsSumToRows(rows);
      }
    }

    /** `drop(index=i)` then `reset_index`: the row at position i goes and
        later rows move down by one. Out of range, pandas raises KeyError
        and the table stays as it was. */
    method DeleteRow(i: int) returns (ok: bool)
      requires Valid()
      modifies this
      ensures Valid() && columns == old(columns)
      ensures ok <==> 0 <= i < |old(rows)|
      ensures ok ==> rows == RemoveAt(old(rows), i)
      ensures !ok ==> rows == old(rows)
    {
      if 0 <= i < |rows| {
        rows := RemoveAt(rows, i);
        ok := true;
      } else {
        ok := false;
      }
    }
  }

  /** A session: one prediction recorded with a previous payment whose due
      date has passed by the day the table is viewed (2024-05-01, monthly,
      viewed on 2024-06-10, say), then deleted twice. */
  method Session(details: PropertyDetails, predictedRent: string, previous: Date, frequencyDays: int,
                 today: Date, due: Date)
    requires ValidDate(previous) && InTimestampRange(today) && InTimestampRange(due)
    requires AddDays(previous, frequencyDays) == Some(due) && Before(due, today)
  {
    var table := RecordOne(details, predictedRent, previous, frequencyDays, today, due);
    ViewOverdue(table, today, due);
    DeleteTwice(table);
  }

  /** A new table holding the one recorded prediction, with its due date. */
  method RecordOne(details: PropertyDetails, predictedRent: string, previous: Date, frequencyDays: int,
                   today: Date, due: Date) returns (table: HistoryTable)
    requires ValidDate(previous) && ValidDate(today) && AddDays(previous, frequencyDays) == Some(due)
    ensures fresh(table) && table.Valid() && |table.rows| == 1
    ensures CellAt(table.rows[0], NextDueColumn) == Text(Format(due))
  {
    table := new HistoryTable.Empty();
    var ok := table.RecordPrediction(details, predictedRent, "Tenant", "0000000000", previous, frequencyDays, today);
  }

  /** Viewing the table after the due date: the row is marked Overdue. */
  method ViewOverdue(table: HistoryTable, today: Date, due: Date)
    requires table.Valid() && |table.rows| == 1
    requires InTimestampRange(today) && InTimestampRange(due) && Before(due, today)
    requires CellAt(table.rows[0], NextDueColumn) == Text(Format(due))
    modifies table
    ensures table.Valid() && |table.rows| == 1
    ensures CellAt(table.rows[0], StatusColumn) == Text(Label(Overdue))
  {
    ghost var recorded := table.rows;
    table.RecomputeStatuses(today);
    DayNumberOrder(due, today);
    StatusOfDayNumbers(today, due);
    assert CellAt(table.rows[0], StatusColumn) == Text(Label(Overdue)) by {
      assert table.rows[0] == recorded[0][StatusColumn := Text(Label(GetPaymentStatus(Text(Format(due)), today)))];
    }
  }

  /** Deleting the only row empties the table; deleting again fails. */
  method DeleteTwice(table: HistoryTable)
    requires table.Valid() && |table.rows| == 1
    modifies table
  {
    var deleted := table.DeleteRow(0);
    assert deleted && table.rows == [];
    deleted := table.DeleteRow(0);
    assert !deleted && table.rows == [];
  }
}
