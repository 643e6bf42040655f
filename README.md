# Exam date-sheet generator, modelled in Dafny

This project models the scheduler of a small exam date-sheet tool,
`generate_schedule` in `app.py`, together with its two calendar predicates
`is_second_saturday` and `is_blocked_day`.

The scheduler takes each class's list of subjects and a start date. It
walks the calendar one day at a time and skips blocked days: Sundays, and
the Saturday that falls on day 8 to 14 of its month. On every other day it
writes one row. It visits the classes in their given order:

- A class that is already finished, or whose list is empty, gets the
  placeholder `-` and is marked finished.
- Any other class gets the first subject in its list that no class has
  been given that day. That one occurrence leaves the list. If every
  subject in the list is taken, the class gets `-`.

The scheduler stops once every class is finished. What the code does
differs from the banner text shown to its users. The model follows the
code:

- The class groups "11 …" and "12 …" are built and never used, so classes
  of a group are not kept in step.
- There is no holiday list, no stall detection and no cap on the number of
  days.
- The anti-repeat rule is "no two classes get the same subject on the same
  day". It is not a window over consecutive days.

The project has six modules:

- `Wrappers` holds the Option and Result types.
- `Calendar` holds proleptic Gregorian dates in years 1..9999, as Python's
  `datetime.date` has them. It defines the ordinal day number, Python's
  `weekday()` (Monday 0, Saturday 5, Sunday 6), the successor date and the
  two predicates.
- `Backlog` holds the two list operations the scan uses: the first unused
  position, and Python's `list.remove`.
- `Timetable` holds the scheduler as functions. `VisitClass` is one class's
  visit, `DayOf` is one day's row, and `Run` is the whole walk over the
  calendar. The lemmas here are about one day.
- `RunProperties` holds lemmas about whole runs and the `SheetGuarantees`
  predicate.
- `Generator` holds the scheduler as the source runs it. It has a `while`
  loop over the days, a `for` loop over the classes and a scan loop over
  one class's subjects. Each method is proved to compute the matching
  function of `Timetable`. `GenerateSchedule` also promises
  `SheetGuarantees` for the sheet it returns.

The source takes a dictionary from class name to subject list. The model
takes the keys in insertion order as a sequence of distinct names, and the
dictionary as a map over exactly those names. The dictionary's iteration
order is also the order in which classes are visited.

## Model

| member | source | states |
|---|---|---|
| Calendar.Weekday | app.py:81 | The weekday of a date is in 0..6. |
| Calendar.WeekdayAnchors | app.py:80-84 | 0001-01-01 and 2024-01-01 are Mondays (0), as Python's `weekday()` numbers them; 2026-10-10 is a second Saturday and 2026-10-11 a Sunday, both blocked; 2026-10-03 and 2026-10-12 are open. With NextDayWeekday this fixes the numbering of every date. |
| Calendar.NextDay | app.py:127 | The date one day later has an ordinal exactly one higher and is valid. None is returned exactly at 9999-12-31, where Python's `date + timedelta(days=1)` overflows. |
| Calendar.NextDayWeekday | app.py:104-106 | Stepping the cursor one day advances the weekday by one modulo 7. |
| Calendar.SameMonthWeekday | app.py:81 | Two days of one month share a weekday exactly when their day numbers differ by a multiple of 7. |
| Calendar.SaturdayRank | app.py:80-81 | A Saturday on day k is Saturday number (k-1)/7+1 of its month. |
| Calendar.SecondSaturdayIsSecond | app.py:80-81 | The test "Saturday and day 8..14" holds exactly when the day is a Saturday and the second Saturday of its month. |
| Calendar.BlockedIsSundayOrSecondSaturday | app.py:83-84 | A day is blocked exactly when it is a Sunday or the second Saturday of its month. |
| Calendar.BlockedStretch | app.py:104-106 | Two blocked days in a row are a second Saturday and the Sunday after it, and no three days in a row are blocked. |
| Calendar.DaysToOpen | app.py:104-106 | The number of blocked days before the next open day is at most 2, and it is 0 exactly when the day is open. |
| Calendar.DaysToOpenDecreases | app.py:104-106 | Skipping a blocked day brings the next open day strictly closer, so the skip loop ends. |
| Backlog.FirstUnused | app.py:117-118 | The result is the first position whose subject is not used today: every earlier subject is used. None means every subject is used. |
| Backlog.RemoveFirst | app.py:121 | `list.remove` shortens the list by exactly one. |
| Backlog.RemoveFirstAt | app.py:121 | When no earlier subject equals the chosen one, `remove` drops exactly the scanned position and leaves the rest in order. |
| Backlog.RemoveFirstMultiset | app.py:121 | `remove` takes exactly one occurrence of the value out of the list's multiset. |
| Timetable.VisitClass | app.py:111-124 | One class's visit keeps the set of classes with a backlog. Its full effect is stated by ClassOutcome and FirstPick. |
| Timetable.VisitAll | app.py:111-124 | Visiting a sequence of classes keeps the set of classes with a backlog. |
| Timetable.RunStep | app.py:102-127 | A run returns no rows once `len(finished) >= len(classes)`. It skips a blocked day. Otherwise it writes the day's row and continues one day later. Either step fails with DateOverflow when the cursor cannot advance. |
| Timetable.FinishedCardinality | app.py:102 | With distinct names, the loop test `len(finished) < len(classes)` holds exactly when some class is unfinished. |
| Timetable.ClassOutcome | app.py:111-124 | The cell and remaining backlog of class j are what its visit gives against its start-of-day backlog and the subjects used before it. A class ends the day finished exactly when it was finished or had an empty backlog, and it then gets `-`. |
| Timetable.FirstPick | app.py:111-122 | A class's cell is the first subject of its backlog that no earlier class in visiting order received that day, or `-`. That one occurrence leaves the backlog and nothing else in it changes. So an earlier class always has first pick. |
| Timetable.UsedIsTaken | app.py:109-121 | `used_today` starts empty and is always exactly the set of subjects written so far in that day's row. |
| Timetable.DayRowDistinct | app.py:109-121 | Within one row, no real subject is given to two classes. |
| Timetable.DayKeepsWf | app.py:111-115 | Over a day, `finished` only grows and every finished class has an empty backlog. The row has one cell per class. |
| Timetable.HeadGoesFirst | app.py:117-121 | The first class in visiting order with a non-empty backlog gets the head of its backlog, because nothing has been used yet. |
| Timetable.DayShrinks | app.py:102-127 | Each processed day with subjects left removes at least one. A day that starts with every backlog empty finishes every class. |
| RunProperties.RunDates | app.py:100-108 | Every row of a run is on a valid open day no earlier than the start, and row dates strictly increase. |
| RunProperties.RunRowsWellFormed | app.py:108-126 | Every row has one cell per class, and no row gives a real subject to two classes. |
| RunProperties.DayFinishedSitsOut | app.py:111-115 | A finished class stays finished over a day and gets `-` in that day's row. |
| RunProperties.RunFinishedStays | app.py:111-115 | A class that is finished gets `-` in every later row. |
| RunProperties.DayAccounts | app.py:117-121 | Over a day, a class's backlog loses exactly the subject written in its cell, if any, and gains nothing. |
| RunProperties.RunComplete | app.py:97-127 | When a run ends normally, the subjects written for a class, read row by row, are a permutation of its backlog at the start. This holds when no subject is `-`. |
| RunProperties.RunShape | app.py:100-127 | A run from a state with every class finished writes no rows. Otherwise it writes at least one row and at most one more than the subjects left, and its last row is all `-`. |
| RunProperties.IdleDay | app.py:111-115 | A day that starts with no subjects left writes an all-`-` row and finishes every class. |
| RunProperties.BusyStaysOpen | app.py:102-121 | A day that starts with subjects left ends with some class unfinished, so the loop goes on. |
| RunProperties.RunGuarantees | app.py:86-129 | A normal end from the initial state gives a sheet with every promise of SheetGuarantees: open and increasing dates, well-formed rows, completeness, no rows without classes, and otherwise 1..total+1 rows ending in an all-`-` row. |
| Generator.PickSubject | app.py:117-124 | The scan returns the first position of the backlog whose subject is not used today, or None when every subject is used. |
| Generator.ScheduleDay | app.py:108-126 | The day loop over the classes yields exactly the cells, backlogs and finished set of DayOf. |
| Generator.GenerateSchedule | app.py:86-129 | The scheduler returns exactly Run from the initial state, and on a normal end its sheet satisfies SheetGuarantees. |

## Left out

- The Streamlit page: configuration, banner, data editor, date input, button, success message and displayed table. It is user interface only.
- The sample table `initial_table`. It is sample data only.
- The parsing of editor rows into the class-to-subjects dictionary. It depends on pandas cell typing. The model takes the dictionary as an ordered sequence of distinct class names plus a map from exactly those names.
- The `"%d-%m-%Y"` formatting of dates and the pandas DataFrame wrapping. A row keeps the date as a `Date` and the cells as a map. Its "Date" column is not a key of that map, so a class named "Date", which would overwrite that column in the source, is not modelled.
- The `class_groups` and `group_of` tables. They are never read, so they do not change behaviour.
- Python's OverflowError, raised when the cursor would pass 9999-12-31. The model returns `Err(DateOverflow)` instead of raising. The source raises even after a final row has been added; the model returns the error there too, and discards the rows.
- RunProperties.RunComplete, RunProperties.DayAccounts, Timetable.UsedIsTaken and Timetable.FirstPick: these are proved only when no input subject is the placeholder text `-`. The source cannot tell such a subject from an empty cell. Timetable.ClassOutcome states each visit without that assumption.
