/**
  The date-sheet generator as the source runs it: a loop over calendar
  days that skips blocked days, and per open day a loop over the classes in
  their given order, each taking the first subject of its backlog that no
  class has used yet that day. Each method is proved to compute the
  corresponding function of module Timetable; the properties proved there
  and in RunProperties are restated for the final date sheet.
*/
module Generator {
  import opened Wrappers
  import opened Calendar
  import opened Backlog
  import opened Timetable
  import opened RunProperties

  /** The scan over a class's backlog: the position of the first subject not used today. */
  method PickSubject(q: seq<Subject>, used: set<Subject>) returns (pick: Option<nat>)
    ensures pick.Some? ==> pick.value < |q| && q[pick.value] !in used
    ensures pick.Some? ==> forall j :: 0 <= j < pick.value ==> q[j] in used
    ensures pick.None? ==> forall j :: 0 <= j < |q| ==> q[j] in used
  {
    var i := 0;
    while i < |q|
      invariant 0 <= i <= |q|
      invariant forall j :: 0 <= j < i ==> q[j] in used
    {
      if q[i] !in used {
        return Some(i);
      }
      i := i + 1;
    }
    return None;
  }

  /**
    One open day: visit the classes in order and fill in the row. A class
    that is finished or has an empty backlog gets the placeholder and is
    marked finished; any other class takes its first subject not used yet
    today, or the placeholder if every one is.
  */
  method ScheduleDay(classes: seq<ClassName>, remaining: map<ClassName, seq<Subject>>, finished: set<ClassName>)
    returns (cells: map<ClassName, string>, remaining': map<ClassName, seq<Subject>>, finished': set<ClassName>)
    requires remaining.Keys == Members(classes)
    ensures var ds := DayOf(classes, Progress(remaining, finished));
      cells == ds.cells && remaining' == ds.remaining && finished' == ds.finished
  {
    ghost var p := Progress(remaining, finished);
    var used: set<Subject> := {};
    cells, remaining', finished' := map[], remaining, finished;
    for k := 0 to |classes|
      invariant DayState(remaining', finished', used, cells) == Prefix(classes, p, k)
    {
      PrefixStep(classes, p, k);
      var c := classes[k];
      assert c in remaining';
      if c in finished' || remaining'[c] == [] {
        cells := cells[c := Placeholder];
        finished' := finished' + {c};
        continue;
      }
      var pick := PickSubject(remaining'[c], used);
      FirstUnusedUnique(remaining'[c], used, pick);
      match pick {
        case None =>
          cells := cells[c := Placeholder];
        case Some(i) =>
          var s := remaining'[c][i];
          cells := cells[c := s];
          used := used + {s};
          remaining' := remaining'[c := RemoveFirst(remaining'[c], s)];
      }
    }
    PrefixAll(classes, p);
  }

  /**
    The date-sheet generator: starting at `startDate`, one row per open day
    until every class has been seen with an empty backlog. Moving the day
    cursor past 9999-12-31 fails with DateOverflow.
  */
  method GenerateSchedule(classes: seq<ClassName>, classSubjects: map<ClassName, seq<Subject>>, startDate: Date)
    returns (result: Result<seq<Row>, ScheduleError>)
    requires Distinct(classes) && classSubjects.Keys == Members(classes)
    requires ValidDate(startDate)
    ensures result == Run(classes, Progress(classSubjects, {}), startDate)
    ensures result.Ok? ==> SheetGuarantees(classes, classSubjects, startDate, result.value)
  {
    ghost var whole := Run(classes, Progress(classSubjects, {}), startDate);
    var remaining := classSubjects;
    var finished: set<ClassName> := {};
    var schedule: seq<Row> := [];
    var current := startDate;
    AfterNoRows(whole);
    while |finished| < |classes|
      invariant Wf(classes, Progress(remaining, finished)) && ValidDate(current)
      invariant whole == AfterRows(schedule, Run(classes, Progress(remaining, finished), current))
      decreases Total(classes, remaining), Members(classes) - finished, DaysToOpen(current)
    {
      ghost var p := Progress(remaining, finished);
      RunStep(classes, p, current);
      if IsBlockedDay(current) {
        var next := NextDay(current);
        if next.None? {
          return Err(DateOverflow);
        }
        DaysToOpenDecreases(current);
        current := next.value;
        continue;
      }
      var cells;
      cells, remaining, finished := ScheduleDay(classes, remaining, finished);
      DayShrinks(classes, p);
      FinishedCardinality(classes, p.finished);
      var row := Row(current, cells);
      var next := NextDay(current);
      if next.None? {
        return Err(DateOverflow);
      }
      AfterRowsAppend(schedule, [row], Run(classes, Progress(remaining, finished), next.value));
      schedule := schedule + [row];
      current := next.value;
    }
    RunStep(classes, Progress(remaining, finished), current);
    assert schedule + [] == schedule;
    result := Ok(schedule);
    RunGuarantees(classes, classSubjects, startDate, schedule);
  }
}
