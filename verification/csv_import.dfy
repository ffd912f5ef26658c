/** The row-by-row normaliser and validator of `import_workout_from_csv`
    (database/db_manager.py). Each spreadsheet row becomes either one
    workout log (registering its exercise in the library when new) or one
    counted error; a sheet missing a required column is rejected before
    any row is read. The database writes are modelled as the lists of
    rows and library entries the import would insert. */
module CsvImport {
  import opened Wrappers
  import opened Text
  import opened Seqs
  import opened Calculations
  import Helpers

  /** A text cell: the column may be absent from the sheet, the cell may be
      empty (pandas NaN), or it holds text. */
  datatype TextCell = Absent | Blank | Text(s: string)

  /** A numeric cell: empty, a number, or text the conversion rejects with
      the given error message. */
  datatype NumCell<T> = NoNumber | Number(v: T) | Unreadable(err: string)

  /** The date cell: empty, a parsed date, or text `pd.to_datetime` rejects. */
  datatype DateCell = NoDate | DateOk(d: int) | DateBad(err: string)

  datatype CsvRow = CsvRow(
    date: DateCell,
    exercise: TextCell,
    muscleGroup: TextCell,
    setOrder: NumCell<int>,
    weight: NumCell<real>,
    unit: TextCell,
    reps: NumCell<int>,
    note: TextCell)

  /** The columns every sheet must have. */
  const RequiredColumns: seq<string> := ["Date", "Exercise", "Set Order", "Weight", "Unit", "Reps"]

  /** Why a row was rejected. */
  datatype RowError = EmptyDate | EmptyExercise | NegativeValue | Raised(err: string)

  /** One entry of the returned message list; the sheet line is the row
      index plus 2 (one header line, 1-based numbering). */
  datatype ImportMessage =
    | MissingColumns(columns: seq<string>)
    | LineError(line: int, error: RowError)

  /** A workout log as inserted; the import never sets an RPE. */
  datatype ImportedLog = ImportedLog(
    date: int, exerciseName: string, setOrder: int, weight: real, unit: string, reps: int, notes: Option<string>)

  /** A library entry the import creates for an unseen exercise. */
  datatype LibraryEntry = LibraryEntry(name: string, muscleGroup: string, exerciseType: string)

  /** `str(cell)`: an empty cell prints as "nan". */
  function CellText(c: TextCell, absentDefault: string): string
  {
    match c
    case Absent => absentDefault
    case Blank => "nan"
    case Text(s) => s
  }

  /** Unit normalisation: the lower-cased, stripped cell when it is a
      recognised unit; else anything mentioning notch or plate is
      "notch/plate", anything mentioning lb or pound is "lb", and the rest
      is "kg". */
  function NormalizeUnit(raw: string): (u: string)
    ensures IsKnownUnit(u)
    ensures IsKnownUnit(Lower(Strip(raw))) ==> u == Lower(Strip(raw))
    ensures !IsKnownUnit(Lower(Strip(raw))) ==>
              u == (if Contains(Lower(Strip(raw)), "notch") || Contains(Lower(Strip(raw)), "plate") then "notch/plate"
                    else if Contains(Lower(Strip(raw)), "lb") || Contains(Lower(Strip(raw)), "pound") then "lb"
                    else "kg")
  {
    var unit := Lower(Strip(raw));
    if unit in ["kg", "lb", "notch", "notch/plate"] then unit
    else if Contains(unit, "notch") || Contains(unit, "plate") then "notch/plate"
    else if Contains(unit, "lb") || Contains(unit, "pound") then "lb"
    else "kg"
  }

  /** Unit normalisation is idempotent: a normalised unit normalises to
      itself. */
  lemma NormalizeUnitIdempotent(raw: string)
    ensures NormalizeUnit(NormalizeUnit(raw)) == NormalizeUnit(raw)
  {
    var u := NormalizeUnit(raw);
    assert u in KnownUnits;
    assert Strip(u) == u by {
      StripKnownUnit(u);
    }
    assert Lower(u) == u by {
      LowerKnownUnit(u);
    }
  }

  lemma StripKnownUnit(u: string)
    requires u in KnownUnits
    ensures Strip(u) == u
  {
    assert !IsWhitespace(u[0]) && !IsWhitespace(u[|u| - 1]);
    StripTrimmed(u);
  }

  lemma LowerKnownUnit(u: string)
    requires u in KnownUnits
    ensures Lower(u) == u
  {
    assert forall i :: 0 <= i < |u| ==> LowerChar(u[i]) == u[i];
  }

  /** The outcome of one row: a log to insert, or the reason it failed. */
  datatype RowOutcome = Accepted(log: ImportedLog, muscleGroup: string, exerciseType: string) | Rejected(error: RowError)

  /** The row has a parsed date and a non-blank exercise name, so its
      remaining cells are read. */
  predicate Named(row: CsvRow)
  {
    row.date.DateOk? && Strip(CellText(row.exercise, "nan")) != ""
  }

  /** The numeric cells all convert and neither weight nor reps is
      negative. */
  predicate CellsValid(row: CsvRow)
  {
    !row.setOrder.Unreadable? && !row.weight.Unreadable? && !row.reps.Unreadable?
    && (row.weight.Number? ==> row.weight.v >= 0.0) && (row.reps.Number? ==> row.reps.v >= 0)
  }

  /** One row, checked in the source's order: empty date, unparsable date,
      empty exercise name, unreadable set order, weight, reps, then
      negative weight or reps. An accepted row's log is read from its
      cells, with the documented defaults for empty ones. */
  function ProcessRow(row: CsvRow): (o: RowOutcome)
    ensures o.Accepted? <==> Named(row) && CellsValid(row)
    ensures row.date.NoDate? ==> o == Rejected(EmptyDate)
    ensures row.date.DateBad? ==> o == Rejected(Raised(row.date.err))
    ensures row.date.DateOk? && Strip(CellText(row.exercise, "nan")) == "" ==> o == Rejected(EmptyExercise)
    ensures Named(row) && row.setOrder.Unreadable? ==> o == Rejected(Raised(row.setOrder.err))
    ensures Named(row) && !row.setOrder.Unreadable? && row.weight.Unreadable? ==> o == Rejected(Raised(row.weight.err))
    ensures Named(row) && !row.setOrder.Unreadable? && !row.weight.Unreadable? && row.reps.Unreadable? ==>
              o == Rejected(Raised(row.reps.err))
    ensures (Named(row) && !row.setOrder.Unreadable? && !row.weight.Unreadable? && !row.reps.Unreadable?
             && !CellsValid(row)) ==> o == Rejected(NegativeValue)
    ensures o.Accepted? ==> o.log.weight >= 0.0 && o.log.reps >= 0
    ensures o.Accepted? ==> IsKnownUnit(o.log.unit)
    ensures o.Accepted? ==> o.log.exerciseName != "" && o.log.exerciseName == Strip(CellText(row.exercise, "nan"))
    ensures o.Accepted? ==> o.log.notes != Some("")
    ensures o.Accepted? ==> o.exerciseType == Helpers.InferExerciseType(o.log.exerciseName)
    ensures o.Accepted? ==> o.log == LogOf(row, row.date.d, o.log.exerciseName)
    ensures o.Accepted? ==> o.muscleGroup == Helpers.MapMuscleGroup(Strip(CellText(row.muscleGroup, "Other")))
                            && o.muscleGroup in Helpers.MuscleGroups()
  {
    match row.date
    case NoDate => Rejected(EmptyDate)
    case DateBad(err) => Rejected(Raised(err))
    case DateOk(d) =>
      var name := Strip(CellText(row.exercise, "nan"));
      if name == "" then Rejected(EmptyExercise) else ReadCells(row, d, name)
  }

  /** The cells after the exercise name, for a row dated `d` and named
      `name`: the first unreadable number among set order, weight and reps
      raises its error, then a negative weight or reps rejects the row;
      otherwise the row yields its log. */
  function ReadCells(row: CsvRow, d: int, name: string): (o: RowOutcome)
    ensures o.Accepted? <==> CellsValid(row)
    ensures row.setOrder.Unreadable? ==> o == Rejected(Raised(row.setOrder.err))
    ensures !row.setOrder.Unreadable? && row.weight.Unreadable? ==> o == Rejected(Raised(row.weight.err))
    ensures !row.setOrder.Unreadable? && !row.weight.Unreadable? && row.reps.Unreadable? ==>
              o == Rejected(Raised(row.reps.err))
    ensures !row.setOrder.Unreadable? && !row.weight.Unreadable? && !row.reps.Unreadable? && !CellsValid(row) ==>
              o == Rejected(NegativeValue)
    ensures o.Accepted? ==> o == Accepted(LogOf(row, d, name), GroupOf(row), Helpers.InferExerciseType(name))
  {
    var setOrder := ReadNumber(row.setOrder, 1);
    if setOrder.Fail? then Rejected(Raised(setOrder.err))
    else
      var weight := ReadNumber(row.weight, 0.0);
      if weight.Fail? then Rejected(Raised(weight.err))
      else
        var reps := ReadNumber(row.reps, 0);
        if reps.Fail? then Rejected(Raised(reps.err))
        else if weight.v < 0.0 || reps.v < 0 then Rejected(NegativeValue)
        else Accepted(LogOf(row, d, name), GroupOf(row), Helpers.InferExerciseType(name))
  }

  /** The log a row with readable numbers yields: each field is its cell's
      value, empty cells taking the defaults 1 (set order), 0.0 (weight),
      "nan" (unit) and 0 (reps); the unit is normalised and the note
      stripped. */
  function LogOf(row: CsvRow, d: int, name: string): (log: ImportedLog)
    requires !row.setOrder.Unreadable? && !row.weight.Unreadable? && !row.reps.Unreadable?
    ensures log.date == d && log.exerciseName == name
    ensures row.setOrder.NoNumber? ==> log.setOrder == 1
    ensures row.setOrder.Number? ==> log.setOrder == row.setOrder.v
    ensures row.weight.NoNumber? ==> log.weight == 0.0
    ensures row.weight.Number? ==> log.weight == row.weight.v
    ensures row.reps.NoNumber? ==> log.reps == 0
    ensures row.reps.Number? ==> log.reps == row.reps.v
    ensures IsKnownUnit(log.unit) && log.unit == NormalizeUnit(CellText(row.unit, "nan"))
    ensures log.notes == NoteOf(row.note) && log.notes != Some("")
  {
    ImportedLog(d, name, ReadNumber(row.setOrder, 1).v, ReadNumber(row.weight, 0.0).v,
                NormalizeUnit(CellText(row.unit, "nan")), ReadNumber(row.reps, 0).v, NoteOf(row.note))
  }

  /** The muscle group cell ("Other" when empty), stripped and mapped onto
      the fixed groups. */
  function GroupOf(row: CsvRow): (g: string)
    ensures g in Helpers.MuscleGroups()
  {
    Helpers.MapMuscleGroup(Strip(CellText(row.muscleGroup, "Other")))
  }

  /** A number read from a cell, or the conversion's error. */
  datatype Read<T> = Ok(v: T) | Fail(err: string)

  /** `int(cell)` / `float(cell)` when the cell is not empty, else the
      default. */
  function ReadNumber<T>(c: NumCell<T>, default: T): (r: Read<T>)
    ensures c.NoNumber? ==> r == Ok(default)
    ensures c.Number? ==> r == Ok(c.v)
    ensures c.Unreadable? ==> r == Fail(c.err)
  {
    match c
    case NoNumber => Ok(default)
    case Number(v) => Ok(v)
    case Unreadable(err) => Fail(err)
  }

  /** The note: an absent column or empty text gives none, an empty cell
      gives none, anything else is stripped and kept when non-empty. */
  function NoteOf(c: TextCell): (n: Option<string>)
    ensures n != Some("")
    ensures c.Text? && Strip(c.s) != "" ==> n == Some(Strip(c.s))
    ensures !(c.Text? && Strip(c.s) != "") ==> n == None
  {
    match c
    case Absent => None
    case Blank => None
    case Text(s) => if Strip(s) == "" then None else Some(Strip(s))
  }

  /** The running state of the import loop. */
  datatype ImportState = ImportState(
    success: nat,
    errors: nat,
    messages: seq<ImportMessage>,
    logs: seq<ImportedLog>,
    library: set<string>,
    added: seq<LibraryEntry>)

  /** Every message reports a rejected row by its sheet line, lines
      ascending. */
  predicate MessagesMatch(messages: seq<ImportMessage>, rows: seq<CsvRow>)
  {
    (forall k :: 0 <= k < |messages| ==>
       messages[k].LineError? && 2 <= messages[k].line < |rows| + 2
       && ProcessRow(rows[messages[k].line - 2]) == Rejected(messages[k].error))
    && forall k, l :: 0 <= k < l < |messages| ==>
         messages[k].LineError? && messages[l].LineError? && messages[k].line < messages[l].line
  }

  /** Every inserted log has non-negative weight and reps and a recognised
      unit. */
  predicate LogsClean(logs: seq<ImportedLog>)
  {
    forall k :: 0 <= k < |logs| ==> logs[k].weight >= 0.0 && logs[k].reps >= 0 && IsKnownUnit(logs[k].unit)
  }

  function NamesOf(logs: seq<ImportedLog>): set<string>
  {
    set k | 0 <= k < |logs| :: logs[k].exerciseName
  }

  /** The row passes every check. */
  predicate Acceptable(row: CsvRow)
  {
    ProcessRow(row).Accepted?
  }

  predicate IsAccepted(o: RowOutcome)
  {
    o.Accepted?
  }

  /** `ProcessRow` of each row, in row order. */
  function Outcomes(rows: seq<CsvRow>): seq<RowOutcome>
  {
    seq(|rows|, i requires 0 <= i < |rows| => ProcessRow(rows[i]))
  }

  lemma OutcomesSnoc(rows: seq<CsvRow>)
    requires |rows| > 0
    ensures Outcomes(rows) == Outcomes(rows[..|rows| - 1]) + [ProcessRow(rows[|rows| - 1])]
  {
  }

  /** As many rows are acceptable as outcomes are acceptances. */
  lemma {:induction false} AcceptedCount(rows: seq<CsvRow>)
    ensures CountWhere(Outcomes(rows), IsAccepted) == CountWhere(rows, Acceptable)
    decreases |rows|
  {
    if |rows| > 0 {
      OutcomesSnoc(rows);
      assert Outcomes(rows)[..|rows| - 1] == Outcomes(rows[..|rows| - 1]);
      AcceptedCount(rows[..|rows| - 1]);
    }
  }

  /** The logs of the accepted outcomes, in order. */
  function AcceptedLogs(os: seq<RowOutcome>): (logs: seq<ImportedLog>)
    ensures |logs| == CountWhere(os, IsAccepted)
  {
    if |os| == 0 then []
    else
      var front := AcceptedLogs(os[..|os| - 1]);
      if os[|os| - 1].Accepted? then front + [os[|os| - 1].log] else front
  }

  lemma AcceptedLogsSnoc(os: seq<RowOutcome>, o: RowOutcome)
    ensures AcceptedLogs(os + [o]) == if o.Accepted? then AcceptedLogs(os) + [o.log] else AcceptedLogs(os)
  {
    assert (os + [o])[..|os|] == os;
  }

  /** The outcome accepts a row under exercise name `n`. */
  predicate AcceptsName(o: RowOutcome, n: string)
  {
    o.Accepted? && o.log.exerciseName == n
  }

  /** Outcome `j` is the first acceptance under name `n`. */
  predicate FirstAcceptedAt(os: seq<RowOutcome>, j: int, n: string)
  {
    0 <= j < |os| && AcceptsName(os[j], n) && forall i :: 0 <= i < j ==> !AcceptsName(os[i], n)
  }

  /** Entry `e` carries the muscle group and type of the first row accepted
      under its name. */
  predicate CreatedByFirstRow(os: seq<RowOutcome>, e: LibraryEntry)
  {
    exists j :: 0 <= j < |os| && FirstAcceptedAt(os, j, e.name)
                && os[j].muscleGroup == e.muscleGroup && os[j].exerciseType == e.exerciseType
  }

  function EntryNames(added: seq<LibraryEntry>): set<string>
  {
    set k | 0 <= k < |added| :: added[k].name
  }

  /** The created library entries: exactly one per accepted exercise name
      outside the starting library, each made from the first row accepted
      under that name. */
  predicate AddedFor(added: seq<LibraryEntry>, os: seq<RowOutcome>, library: set<string>)
  {
    EntryNames(added) == NamesOf(AcceptedLogs(os)) - library
    && (forall k, l :: 0 <= k < l < |added| ==> added[k].name != added[l].name)
    && forall k :: 0 <= k < |added| ==> CreatedByFirstRow(os, added[k])
  }

  /** What processing `rows` from `library` yields: each row is counted
      once, every error is reported against its own line, the inserted logs
      are those of the accepted rows in order, the library grows by exactly
      their names, and each new name creates one library entry. */
  predicate Imported(st: ImportState, rows: seq<CsvRow>, library: set<string>)
  {
    st.success + st.errors == |rows|
    && |st.messages| == st.errors && |st.logs| == st.success
    && MessagesMatch(st.messages, rows)
    && st.logs == AcceptedLogs(Outcomes(rows))
    && LogsClean(st.logs)
    && st.library == library + NamesOf(st.logs)
    && AddedFor(st.added, Outcomes(rows), library)
  }

  /** One pass of the loop body on the row at sheet line `line`: a rejected
      row adds an error message; an accepted row adds its log, and a library
      entry when its exercise name is new. */
  function Advance(st: ImportState, row: CsvRow, line: nat): ImportState
  {
    match ProcessRow(row)
    case Rejected(e) =>
      ImportState(st.success, st.errors + 1, st.messages + [LineError(line, e)], st.logs, st.library, st.added)
    case Accepted(log, group, exerciseType) =>
      if log.exerciseName in st.library then
        ImportState(st.success + 1, st.errors, st.messages, st.logs + [log], st.library, st.added)
      else
        ImportState(st.success + 1, st.errors, st.messages, st.logs + [log], st.library + {log.exerciseName},
                    st.added + [LibraryEntry(log.exerciseName, group, exerciseType)])
  }

  /** Rows 0 .. |rows|-1 processed in order, starting from the given library
      of exercise names (sheet line = row index + 2, the header being line 1). */
  function ImportRows(rows: seq<CsvRow>, library: set<string>): (st: ImportState)
    ensures Imported(st, rows, library)
  {
    if |rows| == 0 then ImportState(0, 0, [], [], library, [])
    else
      var idx := |rows| - 1;
      var st := ImportRows(rows[..idx], library);
      AdvanceKeeps(st, rows, library);
      Advance(st, rows[idx], idx + 2)
  }

  /** Processing one more row keeps the import facts. */
  lemma AdvanceKeeps(st: ImportState, rows: seq<CsvRow>, library: set<string>)
    requires |rows| > 0 && Imported(st, rows[..|rows| - 1], library)
    ensures Imported(Advance(st, rows[|rows| - 1], |rows| + 1), rows, library)
  {
    var os := Outcomes(rows[..|rows| - 1]);
    var o := ProcessRow(rows[|rows| - 1]);
    OutcomesSnoc(rows);
    AcceptedLogsSnoc(os, o);
    CreatedStay(st.added, os, o);
    match o
    case Rejected(e) =>
      AdvanceRejected(st, rows, library, e);
    case Accepted(log, group, exerciseType) =>
      MessagesExtend(st.messages, rows);
      AcceptStep(st.logs, log);
      if log.exerciseName in st.library {
        LibraryKnownName(st, os, o, library);
        AdvanceKnownName(st, rows, library, log, group, exerciseType);
      } else {
        LibraryNewName(st, os, o, library);
        AdvanceNewName(st, rows, library, log, group, exerciseType);
      }
  }

  lemma AdvanceRejected(st: ImportState, rows: seq<CsvRow>, library: set<string>, e: RowError)
    requires |rows| > 0 && Imported(st, rows[..|rows| - 1], library)
    requires ProcessRow(rows[|rows| - 1]) == Rejected(e)
    requires AcceptedLogs(Outcomes(rows)) == st.logs
    requires AddedFor(st.added, Outcomes(rows), library)
    ensures Imported(Advance(st, rows[|rows| - 1], |rows| + 1), rows, library)
  {
    var next := ImportState(st.success, st.errors + 1, st.messages + [LineError(|rows| + 1, e)],
                            st.logs, st.library, st.added);
    assert Advance(st, rows[|rows| - 1], |rows| + 1) == next;
    RejectStep(st.messages, rows, e);
  }

  /** An accepted row whose exercise name is already known adds only its log. */
  lemma AdvanceKnownName(st: ImportState, rows: seq<CsvRow>, library: set<string>, log: ImportedLog,
                         group: string, exerciseType: string)
    requires |rows| > 0 && st.success + st.errors == |rows| - 1
    requires |st.messages| == st.errors && |st.logs| == st.success
    requires ProcessRow(rows[|rows| - 1]) == Accepted(log, group, exerciseType)
    requires log.exerciseName in st.library
    requires MessagesMatch(st.messages, rows) && LogsClean(st.logs + [log])
    requires AcceptedLogs(Outcomes(rows)) == st.logs + [log]
    requires st.library == library + NamesOf(st.logs + [log])
    requires AddedFor(st.added, Outcomes(rows), library)
    ensures Imported(Advance(st, rows[|rows| - 1], |rows| + 1), rows, library)
  {
    var next := ImportState(st.success + 1, st.errors, st.messages, st.logs + [log], st.library, st.added);
    assert Advance(st, rows[|rows| - 1], |rows| + 1) == next;
  }

  /** An accepted row with a new exercise name adds its log and one library
      entry. */
  lemma AdvanceNewName(st: ImportState, rows: seq<CsvRow>, library: set<string>, log: ImportedLog,
                       group: string, exerciseType: string)
    requires |rows| > 0 && st.success + st.errors == |rows| - 1
    requires |st.messages| == st.errors && |st.logs| == st.success
    requires ProcessRow(rows[|rows| - 1]) == Accepted(log, group, exerciseType)
    requires log.exerciseName !in st.library
    requires MessagesMatch(st.messages, rows) && LogsClean(st.logs + [log])
    requires AcceptedLogs(Outcomes(rows)) == st.logs + [log]
    requires st.library + {log.exerciseName} == library + NamesOf(st.logs + [log])
    requires AddedFor(st.added + [LibraryEntry(log.exerciseName, group, exerciseType)], Outcomes(rows), library)
    ensures Imported(Advance(st, rows[|rows| - 1], |rows| + 1), rows, library)
  {
    var next := ImportState(st.success + 1, st.errors, st.messages, st.logs + [log],
                            st.library + {log.exerciseName},
                            st.added + [LibraryEntry(log.exerciseName, group, exerciseType)]);
    assert Advance(st, rows[|rows| - 1], |rows| + 1) == next;
  }

  /** An acceptance under a name already in the library keeps the entries. */
  lemma LibraryKnownName(st: ImportState, os: seq<RowOutcome>, o: RowOutcome, library: set<string>)
    requires st.logs == AcceptedLogs(os) && st.library == library + NamesOf(st.logs)
    requires EntryNames(st.added) == NamesOf(AcceptedLogs(os)) - library
    requires o.Accepted? && o.log.exerciseName in st.library
    ensures st.library == library + NamesOf(st.logs + [o.log])
    ensures EntryNames(st.added) == NamesOf(st.logs + [o.log]) - library
  {
    NamesSnoc(st.logs, o.log);
  }

  /** An acceptance under a new name adds one entry made from it. */
  lemma LibraryNewName(st: ImportState, os: seq<RowOutcome>, o: RowOutcome, library: set<string>)
    requires st.logs == AcceptedLogs(os) && st.library == library + NamesOf(st.logs)
    requires AddedFor(st.added, os, library)
    requires forall k :: 0 <= k < |st.added| ==> CreatedByFirstRow(os + [o], st.added[k])
    requires o.Accepted? && o.log.exerciseName !in st.library
    requires AcceptedLogs(os + [o]) == st.logs + [o.log]
    ensures st.library + {o.log.exerciseName} == library + NamesOf(st.logs + [o.log])
    ensures AddedFor(st.added + [LibraryEntry(o.log.exerciseName, o.muscleGroup, o.exerciseType)], os + [o], library)
  {
    var entry := LibraryEntry(o.log.exerciseName, o.muscleGroup, o.exerciseType);
    NamesSnoc(st.logs, o.log);
    FirstOfNewName(os, o);
    assert CreatedByFirstRow(os + [o], entry) by {
      assert FirstAcceptedAt(os + [o], |os|, entry.name);
    }
    AddEntry(st.added, os + [o], library, st.logs, entry);
  }

  /** A name no earlier outcome accepted is first accepted by the last one. */
  lemma FirstOfNewName(os: seq<RowOutcome>, o: RowOutcome)
    requires o.Accepted? && o.log.exerciseName !in NamesOf(AcceptedLogs(os))
    ensures FirstAcceptedAt(os + [o], |os|, o.log.exerciseName)
  {
    var all := os + [o];
    forall i | 0 <= i < |os|
      ensures !AcceptsName(all[i], o.log.exerciseName)
    {
      assert all[i] == os[i];
      if AcceptsName(os[i], o.log.exerciseName) {
        AcceptedNameListed(os, i, o.log.exerciseName);
      }
    }
  }

  /** The name of every acceptance is among the accepted logs' names. */
  lemma {:induction false} AcceptedNameListed(os: seq<RowOutcome>, i: nat, n: string)
    requires i < |os| && AcceptsName(os[i], n)
    ensures n in NamesOf(AcceptedLogs(os))
    decreases |os|
  {
    var front := os[..|os| - 1];
    if os[|os| - 1].Accepted? {
      NamesSnoc(AcceptedLogs(front), os[|os| - 1].log);
    }
    if i < |os| - 1 {
      assert front[i] == os[i];
      AcceptedNameListed(front, i, n);
    }
  }

  /** A new entry for a name outside the current library keeps the entries
      one per new accepted name. */
  lemma AddEntry(added: seq<LibraryEntry>, os: seq<RowOutcome>, library: set<string>, logs: seq<ImportedLog>,
                 entry: LibraryEntry)
    requires EntryNames(added) == NamesOf(logs) - library
    requires forall k, l :: 0 <= k < l < |added| ==> added[k].name != added[l].name
    requires forall k :: 0 <= k < |added| ==> CreatedByFirstRow(os, added[k])
    requires entry.name !in library + NamesOf(logs) && CreatedByFirstRow(os, entry)
    requires NamesOf(AcceptedLogs(os)) == NamesOf(logs) + {entry.name}
    ensures AddedFor(added + [entry], os, library)
  {
    var a := added + [entry];
    assert forall k :: 0 <= k < |added| ==> a[k] == added[k];
    assert EntryNames(a) == EntryNames(added) + {entry.name} by {
      assert a[|added|] == entry;
    }
    forall k | 0 <= k < |added|
      ensures added[k].name != entry.name
    {
      assert added[k].name in EntryNames(added);
    }
  }

  /** Entries made from the first row of their name stay so when a row is
      added. */
  lemma CreatedStay(added: seq<LibraryEntry>, os: seq<RowOutcome>, o: RowOutcome)
    requires forall k :: 0 <= k < |added| ==> CreatedByFirstRow(os, added[k])
    ensures forall k :: 0 <= k < |added| ==> CreatedByFirstRow(os + [o], added[k])
  {
    forall k | 0 <= k < |added|
      ensures CreatedByFirstRow(os + [o], added[k])
    {
      CreatedExtend(os, o, added[k]);
    }
  }

  lemma CreatedExtend(os: seq<RowOutcome>, o: RowOutcome, e: LibraryEntry)
    requires CreatedByFirstRow(os, e)
    ensures CreatedByFirstRow(os + [o], e)
  {
    var all := os + [o];
    var j :| 0 <= j < |os| && FirstAcceptedAt(os, j, e.name)
             && os[j].muscleGroup == e.muscleGroup && os[j].exerciseType == e.exerciseType;
    assert all[j] == os[j];
    forall i | 0 <= i < j
      ensures !AcceptsName(all[i], e.name)
    {
      assert all[i] == os[i];
    }
    assert FirstAcceptedAt(all, j, e.name);
  }

  lemma RejectStep(messages: seq<ImportMessage>, rows: seq<CsvRow>, e: RowError)
    requires |rows| > 0 && MessagesMatch(messages, rows[..|rows| - 1])
    requires ProcessRow(rows[|rows| - 1]) == Rejected(e)
    ensures MessagesMatch(messages + [LineError(|rows| + 1, e)], rows)
  {
    MessagesExtend(messages, rows);
    MessagesSnoc(messages, rows, LineError(|rows| + 1, e));
  }

  /** Messages about earlier rows still match once a row is added. */
  lemma MessagesExtend(messages: seq<ImportMessage>, rows: seq<CsvRow>)
    requires |rows| > 0 && MessagesMatch(messages, rows[..|rows| - 1])
    ensures MessagesMatch(messages, rows)
    ensures forall k :: 0 <= k < |messages| ==> messages[k].line < |rows| + 1
  {
    var front := rows[..|rows| - 1];
    forall k | 0 <= k < |messages|
      ensures ProcessRow(rows[messages[k].line - 2]) == Rejected(messages[k].error)
    {
      assert front[messages[k].line - 2] == rows[messages[k].line - 2];
    }
  }

  /** A message about a later rejected row can follow the others. */
  lemma MessagesSnoc(messages: seq<ImportMessage>, rows: seq<CsvRow>, msg: ImportMessage)
    requires MessagesMatch(messages, rows)
    requires msg.LineError? && 2 <= msg.line < |rows| + 2
    requires ProcessRow(rows[msg.line - 2]) == Rejected(msg.error)
    requires forall k :: 0 <= k < |messages| ==> messages[k].line < msg.line
    ensures MessagesMatch(messages + [msg], rows)
  {
    var m := messages + [msg];
    assert forall k :: 0 <= k < |messages| ==> m[k] == messages[k];
  }

  lemma NamesSnoc(logs: seq<ImportedLog>, log: ImportedLog)
    ensures NamesOf(logs + [log]) == NamesOf(logs) + {log.exerciseName}
  {
    var l := logs + [log];
    assert forall k :: 0 <= k < |logs| ==> l[k] == logs[k];
    assert l[|logs|] == log;
  }

  lemma AcceptStep(logs: seq<ImportedLog>, log: ImportedLog)
    requires LogsClean(logs) && log.weight >= 0.0 && log.reps >= 0 && IsKnownUnit(log.unit)
    ensures LogsClean(logs + [log])
  {
    var l := logs + [log];
    assert forall k :: 0 <= k < |logs| ==> l[k] == logs[k];
  }

  /** The result `(success_count, error_count, error_messages)` plus what
      would be written. */
  datatype ImportResult = ImportResult(
    success: nat, errors: nat, messages: seq<ImportMessage>, logs: seq<ImportedLog>, added: seq<LibraryEntry>)

  /** `import_workout_from_csv`: with a required column missing, nothing is
      processed and the single message names the missing columns in order;
      otherwise every row is processed. */
  function ImportWorkoutFromCsv(columns: seq<string>, rows: seq<CsvRow>, library: set<string>): (r: ImportResult)
    ensures (exists c :: c in RequiredColumns && c !in columns) ==>
              r.success == 0 && r.errors == 0 && r.logs == [] && r.added == []
              && r.messages == [MissingColumns(Filter(RequiredColumns, (c: string) => c !in columns))]
    ensures (forall c :: c in RequiredColumns ==> c in columns) ==>
              r.success + r.errors == |rows| && |r.messages| == r.errors
              && r.success == CountWhere(rows, Acceptable)
              && MessagesMatch(r.messages, rows)
              && r.logs == AcceptedLogs(Outcomes(rows))
              && AddedFor(r.added, Outcomes(rows), library)
  {
    var missing := Filter(RequiredColumns, (c: string) => c !in columns);
    if missing != [] then
      assert missing[0] in missing;
      ImportResult(0, 0, [MissingColumns(missing)], [], [])
    else
      var st := ImportRows(rows, library);
      AcceptedCount(rows);
      assert forall c :: c in RequiredColumns && c !in columns ==> c in missing by {
        forall c | c in RequiredColumns && c !in columns
          ensures c in missing
        {
          FilterKeeps(RequiredColumns, (c: string) => c !in columns, c);
        }
      }
      ImportResult(st.success, st.errors, st.messages, st.logs, st.added)
  }

}
