/**
  What a whole run of the date-sheet generator guarantees: the rows fall on
  open days in increasing order, each row gives a subject to at most one
  class, finished classes sit out every later row, every subject of every
  class is written exactly once, and the sheet ends with an all-placeholder
  row after at most one row per subject plus one.
*/
module RunProperties {
  import opened Wrappers
  import opened Calendar
  import opened Backlog
  import opened Timetable

  /** Every row is on a valid open day not before ordinal `from`, later rows on later days. */
  ghost predicate DatesOpenAndIncreasing(rows: seq<Row>, from: int) {
    && (forall i :: 0 <= i < |rows| ==>
          ValidDate(rows[i].date) && !IsBlockedDay(rows[i].date) && Ordinal(rows[i].date) >= from)
    && (forall i, j :: 0 <= i < j < |rows| ==> Ordinal(rows[i].date) < Ordinal(rows[j].date))
  }

  /** Every row has one cell per class and no subject twice. */
  ghost predicate RowsWellFormed(classes: seq<ClassName>, rows: seq<Row>) {
    forall i :: 0 <= i < |rows| ==> rows[i].cells.Keys == Members(classes) && RowDistinct(rows[i].cells)
  }

  /** The subjects written for class `c`, read row by row. */
  function RealEntries(rows: seq<Row>, c: ClassName): seq<Subject> {
    if rows == [] then []
    else (if c in rows[0].cells && rows[0].cells[c] != Placeholder then [rows[0].cells[c]] else [])
         + RealEntries(rows[1..], c)
  }

  lemma DatesPrepend(row: Row, rest: seq<Row>, from: int)
    requires ValidDate(row.date) && !IsBlockedDay(row.date) && Ordinal(row.date) >= from
    requires DatesOpenAndIncreasing(rest, Ordinal(row.date) + 1)
    ensures DatesOpenAndIncreasing([row] + rest, from)
  {
    var rows := [row] + rest;
    forall i | 0 < i < |rows| ensures rows[i] == rest[i - 1] {}
  }

  /** On an open day before the end, a normal run writes that day's row and then the rows of the rest. */
  lemma OpenDayRows(classes: seq<ClassName>, p: Progress, d: Date)
    requires Wf(classes, p) && ValidDate(d)
    requires |p.finished| < |classes| && !IsBlockedDay(d)
    ensures Run(classes, p, d).Ok? ==> NextDay(d).Some?
    ensures Run(classes, p, d).Ok? ==>
      var ds := DayOf(classes, p); var p' := Progress(ds.remaining, ds.finished);
      && Wf(classes, p')
      && Run(classes, p', NextDay(d).value).Ok?
      && Run(classes, p, d).value == [Row(d, ds.cells)] + Run(classes, p', NextDay(d).value).value
  {
    RunStep(classes, p, d);
  }

  lemma RealEntriesCons(row: Row, rest: seq<Row>, c: ClassName)
    ensures RealEntries([row] + rest, c) ==
              (if c in row.cells && row.cells[c] != Placeholder then [row.cells[c]] else []) + RealEntries(rest, c)
  {
    assert ([row] + rest)[1..] == rest;
  }

  /** The rows of a run fall on open days and their dates strictly increase. */
  lemma {:induction false} RunDates(classes: seq<ClassName>, p: Progress, d: Date)
    requires Wf(classes, p) && ValidDate(d) && Run(classes, p, d).Ok?
    ensures DatesOpenAndIncreasing(Run(classes, p, d).value, Ordinal(d))
    decreases Total(classes, p.remaining), Members(classes) - p.finished, DaysToOpen(d)
  {
    if |p.finished| >= |classes| {
    } else if IsBlockedDay(d) {
      var next := NextDay(d).value;
      DaysToOpenDecreases(d);
      RunDates(classes, p, next);
    } else {
      var ds := DayOf(classes, p);
      var p' := Progress(ds.remaining, ds.finished);
      OpenDayRows(classes, p, d);
      DayShrinks(classes, p);
      FinishedCardinality(classes, p.finished);
      RunDates(classes, p', NextDay(d).value);
      DatesPrepend(Row(d, ds.cells), Run(classes, p', NextDay(d).value).value, Ordinal(d));
    }
  }

  /** Every row of a run has one cell per class and no subject given to two classes. */
  lemma {:induction false} RunRowsWellFormed(classes: seq<ClassName>, p: Progress, d: Date)
    requires Wf(classes, p) && ValidDate(d) && Run(classes, p, d).Ok?
    ensures RowsWellFormed(classes, Run(classes, p, d).value)
    decreases Total(classes, p.remaining), Members(classes) - p.finished, DaysToOpen(d)
  {
    if |p.finished| >= |classes| {
    } else if IsBlockedDay(d) {
      DaysToOpenDecreases(d);
      RunRowsWellFormed(classes, p, NextDay(d).value);
    } else {
      var ds := DayOf(classes, p);
      var p' := Progress(ds.remaining, ds.finished);
      OpenDayRows(classes, p, d);
      DayKeepsWf(classes, p);
      DayShrinks(classes, p);
      DayRowDistinct(classes, p);
      FinishedCardinality(classes, p.finished);
      RunRowsWellFormed(classes, p', NextDay(d).value);
      RowsPrepend(classes, Row(d, ds.cells), Run(classes, p', NextDay(d).value).value);
    }
  }

  lemma RowsPrepend(classes: seq<ClassName>, row: Row, rest: seq<Row>)
    requires row.cells.Keys == Members(classes) && RowDistinct(row.cells)
    requires RowsWellFormed(classes, rest)
    ensures RowsWellFormed(classes, [row] + rest)
  {
    var rows := [row] + rest;
    forall i | 0 < i < |rows| ensures rows[i] == rest[i - 1] {}
  }

  /** A finished class stays finished over a day and gets the placeholder in its row. */
  lemma DayFinishedSitsOut(classes: seq<ClassName>, p: Progress, c: ClassName)
    requires Wf(classes, p) && c in p.finished
    ensures var ds := DayOf(classes, p);
      c in ds.finished && c in ds.cells && ds.cells[c] == Placeholder
  {
    var j :| 0 <= j < |classes| && classes[j] == c;
    ClassOutcome(classes, p, j);
  }

  /** A class that is finished gets the placeholder in every later row. */
  lemma {:induction false} RunFinishedStays(classes: seq<ClassName>, p: Progress, d: Date, c: ClassName)
    requires Wf(classes, p) && ValidDate(d) && Run(classes, p, d).Ok?
    requires c in p.finished
    ensures forall i :: 0 <= i < |Run(classes, p, d).value| ==>
              c in Run(classes, p, d).value[i].cells && Run(classes, p, d).value[i].cells[c] == Placeholder
    decreases Total(classes, p.remaining), Members(classes) - p.finished, DaysToOpen(d)
  {
    if |p.finished| >= |classes| {
      RunStep(classes, p, d);
    } else if IsBlockedDay(d) {
      RunStep(classes, p, d);
      DaysToOpenDecreases(d);
      RunFinishedStays(classes, p, NextDay(d).value, c);
    } else {
      var ds := DayOf(classes, p);
      var p' := Progress(ds.remaining, ds.finished);
      OpenDayRows(classes, p, d);
      DayFinishedSitsOut(classes, p, c);
      DayShrinks(classes, p);
      FinishedCardinality(classes, p.finished);
      RunFinishedStays(classes, p', NextDay(d).value, c);
      PrependPlaceholder(Row(d, ds.cells), Run(classes, p', NextDay(d).value).value, c);
    }
  }

  lemma PrependPlaceholder(row: Row, rest: seq<Row>, c: ClassName)
    requires c in row.cells && row.cells[c] == Placeholder
    requires forall i :: 0 <= i < |rest| ==> c in rest[i].cells && rest[i].cells[c] == Placeholder
    ensures var rows := [row] + rest;
      forall i :: 0 <= i < |rows| ==> c in rows[i].cells && rows[i].cells[c] == Placeholder
  {
    var rows := [row] + rest;
    forall i | 0 < i < |rows| ensures rows[i] == rest[i - 1] {}
  }

  /**
    Over one day, the subject written for class `c`, if any, is exactly the
    one that left its backlog, and no placeholder text enters a backlog.
  */
  lemma DayAccounts(classes: seq<ClassName>, p: Progress, c: ClassName)
    requires Wf(classes, p) && NoPlaceholder(p.remaining) && c in classes
    ensures var ds := DayOf(classes, p);
      && c in ds.cells && c in ds.remaining
      && Placeholder !in ds.remaining[c]
      && multiset(p.remaining[c]) ==
           multiset(ds.remaining[c]) + (if ds.cells[c] != Placeholder then multiset{ds.cells[c]} else multiset{})
  {
    var j :| 0 <= j < |classes| && classes[j] == c;
    ClassOutcome(classes, p, j);
    DayKeepsWf(classes, p);
    var ds := DayOf(classes, p);
    OutcomeAccounts(p.remaining[c], c in p.finished, Prefix(classes, p, j).used,
                    ds.cells[c], ds.remaining[c], c in ds.finished);
  }

  /** One visit moves at most one subject from the backlog into the cell, and never the placeholder. */
  lemma OutcomeAccounts(q: seq<Subject>, wasFinished: bool, used: set<Subject>,
                        cell: string, q': seq<Subject>, isFinished: bool)
    requires VisitOutcome(q, wasFinished, used, cell, q', isFinished) && Placeholder !in q
    ensures Placeholder !in q'
    ensures multiset(q) == multiset(q') + (if cell != Placeholder then multiset{cell} else multiset{})
  {
    if !isFinished {
      match FirstUnused(q, used)
      case None =>
      case Some(k) =>
        DropAtMultiset(q, k);
        assert multiset(q) == multiset(q') + multiset{q[k]};
        assert Placeholder !in multiset(q');
    }
  }

  lemma DayKeepsNoPlaceholder(classes: seq<ClassName>, p: Progress)
    requires Wf(classes, p) && NoPlaceholder(p.remaining)
    ensures NoPlaceholder(DayOf(classes, p).remaining)
  {
    DayKeepsWf(classes, p);
    forall c | c in DayOf(classes, p).remaining ensures Placeholder !in DayOf(classes, p).remaining[c] {
      DayAccounts(classes, p, c);
    }
  }

  /**
    Completeness: when a run ends normally, the subjects written for each
    class, read in row order, are a permutation of its backlog at the start.
  */
  lemma {:induction false} RunComplete(classes: seq<ClassName>, p: Progress, d: Date, c: ClassName)
    requires Wf(classes, p) && NoPlaceholder(p.remaining) && ValidDate(d) && Run(classes, p, d).Ok?
    requires c in classes
    ensures multiset(RealEntries(Run(classes, p, d).value, c)) == multiset(p.remaining[c])
    decreases Total(classes, p.remaining), Members(classes) - p.finished, DaysToOpen(d)
  {
    if |p.finished| >= |classes| {
      FinishedCardinality(classes, p.finished);
    } else if IsBlockedDay(d) {
      DaysToOpenDecreases(d);
      RunComplete(classes, p, NextDay(d).value, c);
    } else {
      var ds := DayOf(classes, p);
      var p' := Progress(ds.remaining, ds.finished);
      OpenDayRows(classes, p, d);
      DayShrinks(classes, p);
      FinishedCardinality(classes, p.finished);
      DayAccounts(classes, p, c);
      DayKeepsNoPlaceholder(classes, p);
      RunComplete(classes, p', NextDay(d).value, c);
      EntriesPrepend(Row(d, ds.cells), Run(classes, p', NextDay(d).value).value, c,
                     p.remaining[c], ds.remaining[c]);
    }
  }

  /** A row's entry for `c` followed by the later rows accounts for the backlog before the row. */
  lemma EntriesPrepend(row: Row, rest: seq<Row>, c: ClassName, q: seq<Subject>, q': seq<Subject>)
    requires c in row.cells && multiset(RealEntries(rest, c)) == multiset(q')
    requires multiset(q) == multiset(q') + (if row.cells[c] != Placeholder then multiset{row.cells[c]} else multiset{})
    ensures multiset(RealEntries([row] + rest, c)) == multiset(q)
  {
    RealEntriesCons(row, rest, c);
  }

  /** The last row gives every class the placeholder. */
  ghost predicate EndsIdle(classes: seq<ClassName>, rows: seq<Row>) {
    rows != [] && forall c :: c in classes ==> c in rows[|rows| - 1].cells && rows[|rows| - 1].cells[c] == Placeholder
  }

  /**
    The shape of the rows written from a state: none once every class is
    finished, otherwise at least one, at most one more than the subjects
    still to be scheduled, and the last one idle.
  */
  ghost predicate ShapeOk(classes: seq<ClassName>, rem: map<ClassName, seq<Subject>>, finished: set<ClassName>,
                          rows: seq<Row>)
    requires rem.Keys == Members(classes)
  {
    && (|finished| >= |classes| ==> rows == [])
    && (|finished| < |classes| ==> 1 <= |rows| <= Total(classes, rem) + 1 && EndsIdle(classes, rows))
  }

  /**
    A run that starts with some class unfinished writes at least one row,
    at most one more than the subjects still to be scheduled, and its last
    row gives every class the placeholder.
  */
  lemma {:induction false} RunShape(classes: seq<ClassName>, p: Progress, d: Date)
    requires Wf(classes, p) && ValidDate(d) && Run(classes, p, d).Ok?
    ensures ShapeOk(classes, p.remaining, p.finished, Run(classes, p, d).value)
    decreases Total(classes, p.remaining), Members(classes) - p.finished, DaysToOpen(d)
  {
    if |p.finished| >= |classes| {
      RunStep(classes, p, d);
    } else if IsBlockedDay(d) {
      RunStep(classes, p, d);
      DaysToOpenDecreases(d);
      RunShape(classes, p, NextDay(d).value);
    } else {
      var ds := DayOf(classes, p);
      var p' := Progress(ds.remaining, ds.finished);
      OpenDayRows(classes, p, d);
      DayShrinks(classes, p);
      FinishedCardinality(classes, p.finished);
      RunShape(classes, p', NextDay(d).value);
      ShapeStep(classes, p, d, Run(classes, p', NextDay(d).value).value);
    }
  }

  /** The shape of a run carries over from the rows after an open day to the rows from it. */
  lemma ShapeStep(classes: seq<ClassName>, p: Progress, d: Date, rest: seq<Row>)
    requires Wf(classes, p) && |p.finished| < |classes|
    requires var ds := DayOf(classes, p); ShapeOk(classes, ds.remaining, ds.finished, rest)
    ensures ShapeOk(classes, p.remaining, p.finished, [Row(d, DayOf(classes, p).cells)] + rest)
  {
    if Total(classes, p.remaining) == 0 {
      IdleDay(classes, p);
    } else {
      BusyDay(classes, p, d, rest);
    }
  }

  /** With nothing left to schedule, the day's row is idle and every class ends finished. */
  lemma IdleDay(classes: seq<ClassName>, p: Progress)
    requires Wf(classes, p) && Total(classes, p.remaining) == 0
    ensures var ds := DayOf(classes, p);
      && |ds.finished| >= |classes|
      && forall c :: c in classes ==> c in ds.cells && ds.cells[c] == Placeholder
  {
    var ds := DayOf(classes, p);
    DayKeepsWf(classes, p);
    DayShrinks(classes, p);
    FinishedCardinality(classes, ds.finished);
    TotalZero(classes, p.remaining);
    forall c | c in classes ensures c in ds.cells && ds.cells[c] == Placeholder {
      var j :| 0 <= j < |classes| && classes[j] == c;
      ClassOutcome(classes, p, j);
    }
  }

  /** With something left to schedule, some class stays unfinished, so more rows follow. */
  lemma BusyDay(classes: seq<ClassName>, p: Progress, d: Date, rest: seq<Row>)
    requires Wf(classes, p) && Total(classes, p.remaining) > 0
    requires var ds := DayOf(classes, p); ShapeOk(classes, ds.remaining, ds.finished, rest)
    ensures var rows := [Row(d, DayOf(classes, p).cells)] + rest;
      1 <= |rows| <= Total(classes, p.remaining) + 1 && EndsIdle(classes, rows)
  {
    var ds := DayOf(classes, p);
    BusyStaysOpen(classes, p);
    DayShrinks(classes, p);
    PrependShape(classes, p.remaining, ds.remaining, ds.finished, Row(d, ds.cells), rest);
  }

  lemma PrependShape(classes: seq<ClassName>, rem: map<ClassName, seq<Subject>>,
                     rem': map<ClassName, seq<Subject>>, finished': set<ClassName>, row: Row, rest: seq<Row>)
    requires rem.Keys == Members(classes) && rem'.Keys == Members(classes)
    requires |finished'| < |classes| && Total(classes, rem') < Total(classes, rem)
    requires ShapeOk(classes, rem', finished', rest)
    ensures 1 <= |[row] + rest| <= Total(classes, rem) + 1 && EndsIdle(classes, [row] + rest)
  {
    assert ([row] + rest)[|rest|] == rest[|rest| - 1];
  }

  /** A day that starts with subjects left ends with some class unfinished. */
  lemma BusyStaysOpen(classes: seq<ClassName>, p: Progress)
    requires Wf(classes, p) && Total(classes, p.remaining) > 0
    ensures |DayOf(classes, p).finished| < |classes|
  {
    var ds := DayOf(classes, p);
    DayKeepsWf(classes, p);
    var j := FirstBusyClass(classes, p.remaining);
    HeadGoesFirst(classes, p, j);
    FinishedCardinality(classes, ds.finished);
  }

  /** Everything a normal end of the generator promises about the date sheet it returns. */
  ghost predicate SheetGuarantees(classes: seq<ClassName>, classSubjects: map<ClassName, seq<Subject>>,
                                  startDate: Date, rows: seq<Row>)
    requires classSubjects.Keys == Members(classes) && ValidDate(startDate)
  {
    && DatesOpenAndIncreasing(rows, Ordinal(startDate))
    && RowsWellFormed(classes, rows)
    && (NoPlaceholder(classSubjects) ==>
          forall c :: c in classes ==> multiset(RealEntries(rows, c)) == multiset(classSubjects[c]))
    && (classes == [] ==> rows == [])
    && (classes != [] ==> 1 <= |rows| <= Total(classes, classSubjects) + 1 && EndsIdle(classes, rows))
  }

  /** A run from the initial state that ends normally keeps every promise of the date sheet. */
  lemma RunGuarantees(classes: seq<ClassName>, classSubjects: map<ClassName, seq<Subject>>, startDate: Date,
                      rows: seq<Row>)
    requires Distinct(classes) && classSubjects.Keys == Members(classes) && ValidDate(startDate)
    requires Run(classes, Progress(classSubjects, {}), startDate) == Ok(rows)
    ensures SheetGuarantees(classes, classSubjects, startDate, rows)
  {
    var start := Progress(classSubjects, {});
    RunDates(classes, start, startDate);
    RunRowsWellFormed(classes, start, startDate);
    RunShape(classes, start, startDate);
    SheetComplete(classes, classSubjects, startDate, rows);
  }

  lemma SheetComplete(classes: seq<ClassName>, classSubjects: map<ClassName, seq<Subject>>, startDate: Date,
                      rows: seq<Row>)
    requires Distinct(classes) && classSubjects.Keys == Members(classes) && ValidDate(startDate)
    requires Run(classes, Progress(classSubjects, {}), startDate) == Ok(rows)
    ensures NoPlaceholder(classSubjects) ==>
              forall c :: c in classes ==> multiset(RealEntries(rows, c)) == multiset(classSubjects[c])
  {
    if NoPlaceholder(classSubjects) {
      forall c | c in classes ensures multiset(RealEntries(rows, c)) == multiset(classSubjects[c]) {
        RunComplete(classes, Progress(classSubjects, {}), startDate, c);
      }
    }
  }
}
