/**
  The date-sheet generator as functions: the per-day visit of the classes
  (a class gets the first subject of its backlog that no earlier class has
  taken that day) and the run over the calendar that skips blocked days and
  stops once every class has been seen with an empty backlog. The methods
  in module Generator are proved to compute exactly these functions.
*/
module Timetable {
  import opened Wrappers
  import opened Calendar
  import opened Backlog

  type ClassName = string
  type Subject = string

  /** The cell text for "no exam that day". */
  const Placeholder: string := "-"

  /** One line of the date sheet: its date and, per class, a subject or the placeholder. */
  datatype Row = Row(date: Date, cells: map<ClassName, string>)

  /** Advancing the day cursor past 9999-12-31 fails. */
  datatype ScheduleError = DateOverflow

  /** The state carried from one day to the next. */
  datatype Progress = Progress(remaining: map<ClassName, seq<Subject>>, finished: set<ClassName>)

  /** The state while one day's row is filled in, class by class. */
  datatype DayState = DayState(
    remaining: map<ClassName, seq<Subject>>,
    finished: set<ClassName>,
    used: set<Subject>,
    cells: map<ClassName, string>)

  predicate Distinct(s: seq<ClassName>) {
    forall i, j :: 0 <= i < j < |s| ==> s[i] != s[j]
  }

  function Members(s: seq<ClassName>): set<ClassName> {
    set c | c in s
  }

  /** What holds of the carried state throughout a run. */
  predicate Wf(classes: seq<ClassName>, p: Progress) {
    && Distinct(classes)
    && p.remaining.Keys == Members(classes)
    && p.finished <= Members(classes)
    && forall c :: c in p.finished ==> p.remaining[c] == []
  }

  /** No backlog holds the placeholder text as a subject. */
  predicate NoPlaceholder(rem: map<ClassName, seq<Subject>>) {
    forall c :: c in rem ==> Placeholder !in rem[c]
  }

  /** Number of subjects still to be scheduled over the listed classes. */
  function Total(cs: seq<ClassName>, rem: map<ClassName, seq<Subject>>): nat
    requires forall c :: c in cs ==> c in rem
  {
    if cs == [] then 0 else |rem[cs[0]]| + Total(cs[1..], rem)
  }

  /** Visiting one class during a day. */
  function VisitClass(ds: DayState, c: ClassName): (r: DayState)
    requires c in ds.remaining
    ensures r.remaining.Keys == ds.remaining.Keys
  {
    if c in ds.finished || ds.remaining[c] == [] then
      ds.(cells := ds.cells[c := Placeholder], finished := ds.finished + {c})
    else
      match FirstUnused(ds.remaining[c], ds.used)
      case None => ds.(cells := ds.cells[c := Placeholder])
      case Some(i) =>
        var s := ds.remaining[c][i];
        ds.(cells := ds.cells[c := s], used := ds.used + {s},
            remaining := ds.remaining[c := RemoveFirst(ds.remaining[c], s)])
  }

  /** Two day states say the same about class `c`. */
  ghost predicate AgreeOn(a: DayState, b: DayState, c: ClassName) {
    && (c in a.cells <==> c in b.cells)
    && (c in a.cells ==> a.cells[c] == b.cells[c])
    && (c in a.remaining <==> c in b.remaining)
    && (c in a.remaining ==> a.remaining[c] == b.remaining[c])
    && (c in a.finished <==> c in b.finished)
  }

  /** Visiting class `c` leaves every other class alone. */
  lemma VisitClassFrame(ds: DayState, c: ClassName, other: ClassName)
    requires c in ds.remaining && other != c
    ensures AgreeOn(VisitClass(ds, c), ds, other)
  {
  }

  /** Visiting the classes of `cs` in order. */
  function VisitAll(cs: seq<ClassName>, ds: DayState): (r: DayState)
    requires forall c :: c in cs ==> c in ds.remaining
    ensures r.remaining.Keys == ds.remaining.Keys
    decreases |cs|
  {
    if cs == [] then ds
    else VisitClass(VisitAll(cs[..|cs| - 1], ds), cs[|cs| - 1])
  }

  /** A day starts with nothing used and an empty row. */
  function StartDay(p: Progress): DayState {
    DayState(p.remaining, p.finished, {}, map[])
  }

  /** The state once all classes have been visited on a day. */
  function DayOf(classes: seq<ClassName>, p: Progress): DayState
    requires p.remaining.Keys == Members(classes)
  {
    VisitAll(classes, StartDay(p))
  }

  /** The state after the first `k` classes have been visited on a day. */
  function Prefix(classes: seq<ClassName>, p: Progress, k: nat): DayState
    requires p.remaining.Keys == Members(classes) && k <= |classes|
  {
    VisitAll(classes[..k], StartDay(p))
  }

  /**
    The whole run from carried state `p` with the day cursor at `d`: the
    rows of the days still to come, or the overflow of the cursor.
  */
  function Run(classes: seq<ClassName>, p: Progress, d: Date): Result<seq<Row>, ScheduleError>
    requires Wf(classes, p) && ValidDate(d)
    decreases Total(classes, p.remaining), Members(classes) - p.finished, DaysToOpen(d)
  {
    if |p.finished| >= |classes| then Ok([])
    else if IsBlockedDay(d) then
      match NextDay(d)
      case None => Err(DateOverflow)
      case Some(next) => DaysToOpenDecreases(d); Run(classes, p, next)
    else
      var ds := DayOf(classes, p);
      match NextDay(d)
      case None => Err(DateOverflow)
      case Some(next) =>
        DayKeepsWf(classes, p);
        DayShrinks(classes, p);
        FinishedCardinality(classes, p.finished);
        AfterRows([Row(d, ds.cells)], Run(classes, Progress(ds.remaining, ds.finished), next))
  }

  /** Rows already written, followed by what the rest of a run yields. */
  function AfterRows(done: seq<Row>, rest: Result<seq<Row>, ScheduleError>): (r: Result<seq<Row>, ScheduleError>)
    ensures r.Ok? <==> rest.Ok?
    ensures r.Ok? ==> r.value == done + rest.value
    ensures rest.Err? ==> r == rest
  {
    match rest
    case Ok(rows) => Ok(done + rows)
    case Err(e) => Err(e)
  }

  lemma AfterRowsAppend(a: seq<Row>, b: seq<Row>, rest: Result<seq<Row>, ScheduleError>)
    ensures AfterRows(a, AfterRows(b, rest)) == AfterRows(a + b, rest)
  {
    if rest.Ok? {
      assert a + (b + rest.value) == a + b + rest.value;
    }
  }

  lemma AfterNoRows(rest: Result<seq<Row>, ScheduleError>)
    ensures AfterRows([], rest) == rest
  {
    if rest.Ok? {
      assert [] + rest.value == rest.value;
    }
  }

  /** One step of a run: a finished run, a skipped blocked day, or a processed open day. */
  lemma RunStep(classes: seq<ClassName>, p: Progress, d: Date)
    requires Wf(classes, p) && ValidDate(d)
    ensures |p.finished| >= |classes| ==> Run(classes, p, d) == Ok([])
    ensures |p.finished| < |classes| && IsBlockedDay(d) ==>
              Run(classes, p, d) == if NextDay(d).None? then Err(DateOverflow) else Run(classes, p, NextDay(d).value)
    ensures |p.finished| < |classes| && !IsBlockedDay(d) ==>
              var ds := DayOf(classes, p);
              && Wf(classes, Progress(ds.remaining, ds.finished))
              && Run(classes, p, d) ==
                   if NextDay(d).None? then Err(DateOverflow)
                   else AfterRows([Row(d, ds.cells)], Run(classes, Progress(ds.remaining, ds.finished), NextDay(d).value))
  {
    DayKeepsWf(classes, p);
  }

  // ---------------------------------------------------------------------
  // Facts about the helpers

  /** A suffix of distinct class names is distinct too. */
  lemma DistinctTail(s: seq<ClassName>)
    requires Distinct(s) && s != []
    ensures Distinct(s[1..]) && s[0] !in s[1..]
  {
    forall i, j | 0 <= i < j < |s[1..]| ensures s[1..][i] != s[1..][j] {
      assert s[1..][i] == s[i + 1] && s[1..][j] == s[j + 1];
    }
  }

  lemma {:induction false} DistinctCardinality(s: seq<ClassName>)
    requires Distinct(s)
    ensures |Members(s)| == |s|
  {
    if s != [] {
      DistinctTail(s);
      DistinctCardinality(s[1..]);
      assert Members(s) == Members(s[1..]) + {s[0]};
    }
  }

  /**
    With distinct class names, "fewer finished classes than classes", the
    loop condition of the source, means some class is not finished yet.
  */
  lemma FinishedCardinality(classes: seq<ClassName>, finished: set<ClassName>)
    requires Distinct(classes) && finished <= Members(classes)
    ensures |finished| < |classes| <==> finished != Members(classes)
  {
    DistinctCardinality(classes);
    var all := Members(classes);
    if finished != all {
      assert all - finished != {} by {
        var y :| y in all && y !in finished;
        assert y in all - finished;
      }
      var x :| x in all - finished;
      assert all == finished + (all - finished);
      assert finished * (all - finished) == {};
      assert |all - finished| >= |{x}|;
    }
  }

  lemma {:induction false} TotalZero(cs: seq<ClassName>, rem: map<ClassName, seq<Subject>>)
    requires forall c :: c in cs ==> c in rem
    ensures Total(cs, rem) == 0 <==> forall c :: c in cs ==> rem[c] == []
  {
    if cs != [] {
      TotalZero(cs[1..], rem);
      assert forall c :: c in cs ==> c == cs[0] || c in cs[1..];
    }
  }

  /** Shorter backlogs give a smaller total; one strictly shorter, a strictly smaller one. */
  lemma {:induction false} TotalMonotone(cs: seq<ClassName>, rem: map<ClassName, seq<Subject>>,
                                         rem': map<ClassName, seq<Subject>>, j: nat)
    requires forall c :: c in cs ==> c in rem && c in rem'
    requires forall c :: c in cs ==> |rem'[c]| <= |rem[c]|
    ensures Total(cs, rem') <= Total(cs, rem)
    ensures j < |cs| && |rem'[cs[j]]| < |rem[cs[j]]| ==> Total(cs, rem') < Total(cs, rem)
  {
    if cs != [] {
      TotalMonotone(cs[1..], rem, rem', if j > 0 then j - 1 else 0);
      if 0 < j < |cs| {
        assert cs[1..][j - 1] == cs[j];
      }
    }
  }

  /** The first class, in visiting order, whose backlog is not empty. */
  lemma {:induction false} FirstBusyClass(cs: seq<ClassName>, rem: map<ClassName, seq<Subject>>)
    returns (j: nat)
    requires forall c :: c in cs ==> c in rem
    requires Total(cs, rem) > 0
    ensures j < |cs| && rem[cs[j]] != []
    ensures forall i :: 0 <= i < j ==> rem[cs[i]] == []
  {
    if rem[cs[0]] != [] {
      j := 0;
    } else {
      var k := FirstBusyClass(cs[1..], rem);
      j := k + 1;
      assert forall i :: 0 < i < j ==> cs[i] == cs[1..][i - 1];
    }
  }

  // ---------------------------------------------------------------------
  // One day, class by class

  lemma PrefixStep(classes: seq<ClassName>, p: Progress, k: nat)
    requires p.remaining.Keys == Members(classes) && k < |classes|
    ensures Prefix(classes, p, k + 1) == VisitClass(Prefix(classes, p, k), classes[k])
  {
    assert classes[..k + 1][..k] == classes[..k];
  }

  lemma PrefixAll(classes: seq<ClassName>, p: Progress)
    requires p.remaining.Keys == Members(classes)
    ensures Prefix(classes, p, |classes|) == DayOf(classes, p)
  {
    assert classes[..|classes|] == classes;
  }

  /** A class not yet visited still has its start-of-day backlog and status. */
  lemma {:induction false} UntouchedBefore(classes: seq<ClassName>, p: Progress, k: nat, c: ClassName)
    requires p.remaining.Keys == Members(classes) && k <= |classes|
    requires c in Members(classes) && c !in classes[..k]
    ensures Prefix(classes, p, k).remaining[c] == p.remaining[c]
    ensures c in Prefix(classes, p, k).finished <==> c in p.finished
    ensures c !in Prefix(classes, p, k).cells
  {
    if k > 0 {
      assert classes[..k - 1] <= classes[..k];
      UntouchedBefore(classes, p, k - 1, c);
      PrefixStep(classes, p, k - 1);
      assert classes[k - 1] in classes[..k];
    }
  }

  /** Visiting later classes leaves an earlier class's backlog, status and cell alone. */
  lemma {:induction false} KeptAfter(classes: seq<ClassName>, p: Progress, j: nat, n: nat)
    requires p.remaining.Keys == Members(classes) && Distinct(classes)
    requires j < n <= |classes|
    ensures AgreeOn(Prefix(classes, p, n), Prefix(classes, p, j + 1), classes[j])
  {
    if n > j + 1 {
      KeptAfter(classes, p, j, n - 1);
      PrefixStep(classes, p, n - 1);
      VisitClassFrame(Prefix(classes, p, n - 1), classes[n - 1], classes[j]);
    }
  }

  /** What the visit of one class does, read against its start-of-day backlog. */
  ghost predicate VisitOutcome(q: seq<Subject>, wasFinished: bool, used: set<Subject>,
                               cell: string, q': seq<Subject>, isFinished: bool)
  {
    && (isFinished <==> wasFinished || q == [])
    && (isFinished ==> cell == Placeholder && q' == q)
    && (!isFinished ==>
          match FirstUnused(q, used)
          case None => cell == Placeholder && q' == q
          case Some(k) => cell == q[k] && q' == q[..k] + q[k + 1..])
  }

  /** The visit of class number `j` in the final row, against its backlog at the start of the day. */
  lemma ClassOutcome(classes: seq<ClassName>, p: Progress, j: nat)
    requires Wf(classes, p) && j < |classes|
    ensures var ds := DayOf(classes, p); var c := classes[j];
      && c in ds.cells
      && VisitOutcome(p.remaining[c], c in p.finished, Prefix(classes, p, j).used,
                      ds.cells[c], ds.remaining[c], c in ds.finished)
  {
    var c := classes[j];
    assert c !in classes[..j];
    UntouchedBefore(classes, p, j, c);
    PrefixStep(classes, p, j);
    KeptAfter(classes, p, j, |classes|);
    PrefixAll(classes, p);
    var q := p.remaining[c];
    var used := Prefix(classes, p, j).used;
    if !(c in p.finished || q == []) {
      match FirstUnused(q, used)
      case None =>
      case Some(k) => RemoveFirstAt(q, k);
    }
  }

  /** Facts kept while a day's row is filled in. */
  ghost predicate DaySane(classes: seq<ClassName>, k: nat, ds: DayState)
    requires k <= |classes|
  {
    && ds.finished <= Members(classes)
    && (forall c :: c in ds.finished ==> c in ds.remaining && ds.remaining[c] == [])
    && ds.cells.Keys == Members(classes[..k])
    && (forall a :: a in ds.cells && ds.cells[a] != Placeholder ==> ds.cells[a] in ds.used)
    && (forall a, b :: a in ds.cells && b in ds.cells && a != b && ds.cells[a] != Placeholder ==>
          ds.cells[a] != ds.cells[b])
  }

  lemma {:induction false} PrefixSane(classes: seq<ClassName>, p: Progress, k: nat)
    requires Wf(classes, p) && k <= |classes|
    ensures DaySane(classes, k, Prefix(classes, p, k))
    ensures forall c :: c in classes ==> |Prefix(classes, p, k).remaining[c]| <= |p.remaining[c]|
  {
    if k > 0 {
      PrefixSane(classes, p, k - 1);
      PrefixStep(classes, p, k - 1);
      VisitKeepsSane(classes, k - 1, Prefix(classes, p, k - 1));
    }
  }

  /** One visit keeps the row-filling facts, now covering one more class. */
  lemma VisitKeepsSane(classes: seq<ClassName>, k: nat, ds: DayState)
    requires k < |classes| && classes[k] in ds.remaining && DaySane(classes, k, ds)
    ensures DaySane(classes, k + 1, VisitClass(ds, classes[k]))
    ensures forall c :: c in ds.remaining ==> |VisitClass(ds, classes[k]).remaining[c]| <= |ds.remaining[c]|
  {
    assert Members(classes[..k + 1]) == Members(classes[..k]) + {classes[k]} by {
      assert classes[..k + 1] == classes[..k] + [classes[k]];
    }
  }

  /** The day's end state is again a valid carried state, and its row has one cell per class. */
  lemma DayKeepsWf(classes: seq<ClassName>, p: Progress)
    requires Wf(classes, p)
    ensures var ds := DayOf(classes, p);
      && Wf(classes, Progress(ds.remaining, ds.finished))
      && p.finished <= ds.finished
      && ds.cells.Keys == Members(classes)
  {
    PrefixSane(classes, p, |classes|);
    PrefixAll(classes, p);
    assert classes[..|classes|] == classes;
    FinishedGrows(classes, p, |classes|);
  }

  lemma {:induction false} FinishedGrows(classes: seq<ClassName>, p: Progress, k: nat)
    requires p.remaining.Keys == Members(classes) && k <= |classes|
    ensures p.finished <= Prefix(classes, p, k).finished
  {
    if k > 0 {
      FinishedGrows(classes, p, k - 1);
      PrefixStep(classes, p, k - 1);
    }
  }

  /** While every earlier class has an empty backlog, nothing has been used yet that day. */
  lemma {:induction false} NothingUsedYet(classes: seq<ClassName>, p: Progress, k: nat)
    requires Wf(classes, p) && k <= |classes|
    requires forall i :: 0 <= i < k ==> p.remaining[classes[i]] == []
    ensures Prefix(classes, p, k).used == {}
  {
    if k > 0 {
      NothingUsedYet(classes, p, k - 1);
      PrefixStep(classes, p, k - 1);
      assert classes[k - 1] !in classes[..k - 1];
      UntouchedBefore(classes, p, k - 1, classes[k - 1]);
    }
  }

  /**
    The first class in visiting order whose backlog is not empty takes the
    head of its backlog: nothing has been used yet when it is visited.
  */
  lemma HeadGoesFirst(classes: seq<ClassName>, p: Progress, j: nat)
    requires Wf(classes, p) && j < |classes|
    requires p.remaining[classes[j]] != []
    requires forall i :: 0 <= i < j ==> p.remaining[classes[i]] == []
    ensures var ds := DayOf(classes, p); var q := p.remaining[classes[j]];
      classes[j] in ds.cells && classes[j] in ds.remaining &&
      ds.cells[classes[j]] == q[0] && ds.remaining[classes[j]] == q[1..] && classes[j] !in ds.finished
  {
    NothingUsedYet(classes, p, j);
    ClassOutcome(classes, p, j);
  }

  /**
    Each processed day removes at least one subject while any is left, and
    a day that starts with every backlog empty finishes every class.
  */
  lemma DayShrinks(classes: seq<ClassName>, p: Progress)
    requires Wf(classes, p)
    ensures var ds := DayOf(classes, p);
      && Total(classes, ds.remaining) <= Total(classes, p.remaining)
      && (Total(classes, p.remaining) > 0 ==> Total(classes, ds.remaining) < Total(classes, p.remaining))
      && (Total(classes, p.remaining) == 0 ==> ds.finished == Members(classes))
  {
    var ds := DayOf(classes, p);
    DayKeepsWf(classes, p);
    PrefixSane(classes, p, |classes|);
    PrefixAll(classes, p);
    if Total(classes, p.remaining) > 0 {
      var j := FirstBusyClass(classes, p.remaining);
      HeadGoesFirst(classes, p, j);
      TotalMonotone(classes, p.remaining, ds.remaining, j);
    } else {
      TotalMonotone(classes, p.remaining, ds.remaining, 0);
      TotalZero(classes, p.remaining);
      forall c | c in classes ensures c in ds.finished {
        var j :| 0 <= j < |classes| && classes[j] == c;
        ClassOutcome(classes, p, j);
      }
    }
  }

  /** No subject other than the placeholder appears in two cells of a row. */
  predicate RowDistinct(cells: map<ClassName, string>) {
    forall a, b :: a in cells && b in cells && a != b && cells[a] != Placeholder ==> cells[a] != cells[b]
  }

  /** Within one day's row, no subject is given to two classes. */
  lemma DayRowDistinct(classes: seq<ClassName>, p: Progress)
    requires Wf(classes, p)
    ensures RowDistinct(DayOf(classes, p).cells)
  {
    PrefixSane(classes, p, |classes|);
    PrefixAll(classes, p);
  }

  /** The subjects that the first `j` classes of the row received. */
  function TakenBefore(classes: seq<ClassName>, cells: map<ClassName, string>, j: nat): set<Subject>
    requires j <= |classes| && forall i :: 0 <= i < j ==> classes[i] in cells
  {
    if j == 0 then {}
    else TakenBefore(classes, cells, j - 1) +
         (if cells[classes[j - 1]] != Placeholder then {cells[classes[j - 1]]} else {})
  }

  lemma {:induction false} TakenBeforeAgree(classes: seq<ClassName>, m1: map<ClassName, string>,
                                            m2: map<ClassName, string>, j: nat)
    requires j <= |classes|
    requires forall i :: 0 <= i < j ==> classes[i] in m1 && classes[i] in m2 && m1[classes[i]] == m2[classes[i]]
    ensures TakenBefore(classes, m1, j) == TakenBefore(classes, m2, j)
  {
    if j > 0 {
      TakenBeforeAgree(classes, m1, m2, j - 1);
    }
  }

  /** A visit adds to the used set exactly the subject it writes into the row, if any. */
  lemma VisitClassUsed(ds: DayState, c: ClassName)
    requires c in ds.remaining && Placeholder !in ds.remaining[c]
    ensures var r := VisitClass(ds, c);
      c in r.cells && r.used == ds.used + (if r.cells[c] != Placeholder then {r.cells[c]} else {})
  {
  }

  /** Absent placeholder subjects, today's used set is what the earlier classes received. */
  lemma {:induction false} UsedIsTaken(classes: seq<ClassName>, p: Progress, k: nat)
    requires Wf(classes, p) && NoPlaceholder(p.remaining) && k <= |classes|
    ensures forall i :: 0 <= i < k ==> classes[i] in Prefix(classes, p, k).cells
    ensures Prefix(classes, p, k).used == TakenBefore(classes, Prefix(classes, p, k).cells, k)
  {
    PrefixSane(classes, p, k);
    assert forall i :: 0 <= i < k ==> classes[i] in classes[..k];
    if k > 0 {
      var c := classes[k - 1];
      var before := Prefix(classes, p, k - 1);
      var after := Prefix(classes, p, k);
      UsedIsTaken(classes, p, k - 1);
      PrefixStep(classes, p, k - 1);
      assert c !in classes[..k - 1];
      UntouchedBefore(classes, p, k - 1, c);
      VisitClassUsed(before, c);
      forall i | 0 <= i < k - 1
        ensures classes[i] in after.cells && after.cells[classes[i]] == before.cells[classes[i]]
      {
        VisitClassFrame(before, c, classes[i]);
      }
      TakenBeforeAgree(classes, after.cells, before.cells, k - 1);
    }
  }

  /**
    The cell of class number `j` is the first subject of its start-of-day
    backlog that none of the classes before it received that day, or the
    placeholder when there is none or the class is done; that one
    occurrence leaves its backlog and nothing else in it changes. So an
    earlier class always has first pick of a subject.
  */
  lemma FirstPick(classes: seq<ClassName>, p: Progress, j: nat)
    requires Wf(classes, p) && NoPlaceholder(p.remaining) && j < |classes|
    ensures var ds := DayOf(classes, p); var c := classes[j];
      && (forall i :: 0 <= i < |classes| ==> classes[i] in ds.cells)
      && VisitOutcome(p.remaining[c], c in p.finished, TakenBefore(classes, ds.cells, j),
                      ds.cells[c], ds.remaining[c], c in ds.finished)
  {
    var ds := DayOf(classes, p);
    DayKeepsWf(classes, p);
    ClassOutcome(classes, p, j);
    UsedIsTaken(classes, p, j);
    forall i | 0 <= i < j
      ensures classes[i] in ds.cells && ds.cells[classes[i]] == Prefix(classes, p, j).cells[classes[i]]
    {
      KeptAfter(classes, p, i, |classes|);
      KeptAfter(classes, p, i, j);
      PrefixAll(classes, p);
    }
    TakenBeforeAgree(classes, ds.cells, Prefix(classes, p, j).cells, j);
  }
}
