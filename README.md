# time_management_clock, core logic in Dafny

This project models the logic at the centre of the desktop focus tracker
`time_management_clock` and proves properties of it. Four parts of the tracker are covered:

- **AppMonitor** (`clock/app_monitor.py`), module `Monitor`, file `app_monitor.dfy`:
  - the once-a-second focus tick. It credits a second to the app that is already in focus. Any other app becomes the one in focus and has its category looked up in the `classify_app` table. On a miss the classifier is asked and its verdict is stored.
  - the AFK tick. It credits `afk_time`.
  - the reduction of a browser URL to its host;
  - `get_app_times`, the snapshot sorted longest first;
  - `save_focus_times`. It adds the totals to the day's `usage_data` rows and retries while the database is locked.
- **format_time** (`clock/utils.py`), module `Utils`, file `format_time.dfy`. A number of seconds is written as days, hours, minutes and seconds. The model proves that the printed parts are the canonical mixed-radix decomposition of the input, and that the text reads back to the exact input.
- **DynamicSchedule** (`clock/dynamic_schedule.py`), module `Schedule`, file `dynamic_schedule.dfy`. A task is started and ended. Ending it moves the task's expected duration 5 minutes towards the time the session took, but never below 5.
- **CalendarView** (`clock/calendar_view.py`), module `Calendar`, file `calendar_view.dfy`. It covers:
  - day and month navigation of the date the view shows;
  - the earliest date with data;
  - the rules that enable the previous-day and next-day buttons.

Three modules support them:

- `Dates` (`dates.dfy`) is the proleptic Gregorian calendar of Python's `datetime.date`. It covers years 1 to 9999, the day number `toordinal()` gives, and one-day steps with their `OverflowError`.
- `Text` (`text.dfy`) holds `str()` of an integer, `str.split` on one character, and their inverses.
- `Wrappers` (`wrappers.dfy`) holds `Option` and `Result`.

AppMonitor and DynamicSchedule change their fields in place, so they are Dafny classes. Their methods have `modifies` clauses. Each method's `ensures` ties the new state to a pure function: `Step`, `Classify`, `Deposit`, `RetryOutcome`, `Adjusted`, `StepBack`, `StepForward`, `MonthBefore` and `MonthAfter`. The properties the source promises are proved about those functions as lemmas. SQLite, the OpenAI classifier and the clock become parameters:

- a `TransitionOracle` says whether the SELECT works, what the classifier answers (`None` when it raises), and whether the INSERT and commit work;
- a function from try number to `Attempt` (`Committed`, `Locked` or `Failed`) drives the save loop;
- `now`, `lastActivity` and `today` are passed in.

## Model

| member | source | states |
|---|---|---|
| Monitor.Credit | clock/app_monitor.py:215 | the key set grows by exactly the credited name; that name gets its old value (0 when absent) plus 1; every other key keeps its value |
| Monitor.CreditKeepsOrderedDict | clock/app_monitor.py:215 | crediting keeps app_times a dict: keys in insertion order without repeats, a new key goes last |
| Monitor.CreditAddsOneSecond | clock/app_monitor.py:214-215 | a credited tick raises the total time of app_times by exactly one second |
| Monitor.Classify | clock/app_monitor.py:189-213 | the table only gains the name or keeps its keys; other names keep their stored category; the classifier is asked only on a miss; a changed category is the one now stored for the name |
| Monitor.ClassifyCases | clock/app_monitor.py:191-213 | a failed SELECT leaves the table and the category as they were; a hit leaves the table and makes the category the stored one; a miss whose classifier call or INSERT/commit fails leaves the table and the stale category; any other miss stores the verdict for the name and makes it the category |
| Monitor.ClassifierOnlyOnMiss | clock/app_monitor.py:194-198 | the classifier is asked exactly when the SELECT works and the name has no stored category |
| Monitor.CachedVerdictIsReused | clock/app_monitor.py:196-210 | a verdict stored on a miss becomes the category, and the next change of focus to that name reads it back without asking the classifier again and without changing the table |
| Monitor.Step | clock/app_monitor.py:187-215 | one tick: a report of "" changes nothing; a non-empty report or the AFK tick makes that app current; no recorded app is lost; app_times stays a dict |
| Monitor.Run | clock/app_monitor.py:78-89 | a trace of ticks keeps every recorded app and keeps app_times a dict |
| Monitor.RunAddsRepeats | clock/app_monitor.py:187-215 | over any trace of focus and AFK ticks, the total time grows by exactly the number of ticks that find their app already in focus; a change of focus adds nothing |
| Monitor.FirstSecondIsNotCounted | clock/app_monitor.py:189-190 | from a fresh monitor, one report of a name leaves app_times empty and only makes the name current; a second report of it records 1 |
| Monitor.AppMonitor.constructor | clock/app_monitor.py:20-28 | app_times starts empty; no app is current; there is no category; the AFK threshold is the one given |
| Monitor.AppMonitor.UpdateAppTime | clock/app_monitor.py:187-215 | the name becomes current. If it was current, the name is credited and nothing else changes. Otherwise app_times is unchanged, and the category and table change as Classify says, with one classifier call counted when it was consulted |
| Monitor.AppMonitor.FocusTick | clock/app_monitor.py:86-89 | a report of None or "" changes nothing; any other report is one Step of the trace model; on a change of focus the category, the table and the classifier count change as Classify says, and on a repeat they are unchanged |
| Monitor.AppMonitor.AfkTick | clock/app_monitor.py:79-81 | when the idle time is strictly greater than the threshold, the tick is the AFK Step: afk_time is current and credited; otherwise nothing changes; the category and table are never touched |
| Monitor.AfkFiresAfterThreshold | clock/app_monitor.py:79-81 | with threshold 3 and last activity at 0, the tick at 3 s records nothing and the tick at 4 s records afk_time = 1 |
| Monitor.HostOf | clock/app_monitor.py:157 | the host holds no '/'; its value is stated by HostOfSchemeUrl, HostOfBareUrl and LaterDoubleSlashGivesEmptyHost |
| Text.PairSplitsInThree | clock/app_monitor.py:157 | a string holding "//" splits on '/' into at least three fields, so the index 2 is in range |
| Text.SplitCount | clock/app_monitor.py:168 | split on a character yields one field more than the number of occurrences of that character |
| Monitor.HostOfSchemeUrl | clock/app_monitor.py:157 | for scheme + "//" + host + path, with no '/' in scheme or host, the result is exactly the host |
| Monitor.HostOfBareUrl | clock/app_monitor.py:168 | for host + path without "//", the result is everything before the first '/' |
| Monitor.LaterDoubleSlashGivesEmptyHost | clock/app_monitor.py:157 | a URL with no scheme whose path holds "//" after its second field, such as "a.com/x//y", gives the empty host |
| Monitor.SchemeUrlExample | clock/app_monitor.py:157 | "https://mail.google.com/inbox" gives "mail.google.com" |
| Monitor.BareUrlExample | clock/app_monitor.py:168 | "github.com/repo" gives "github.com" |
| Monitor.HostKeepsCase | clock/app_monitor.py:168 | "https://Mail.Google.com/" gives "Mail.Google.com"; no case is folded |
| Monitor.Items | clock/app_monitor.py:219 | the items of app_times are its keys in insertion order, each paired with its value |
| Monitor.ItemsAreEntries | clock/app_monitor.py:219 | the items are exactly the entries of app_times, one per key |
| Monitor.InsertByTime | clock/app_monitor.py:219 | inserting into a list sorted by descending time keeps it sorted and adds exactly that element |
| Monitor.SortByTime | clock/app_monitor.py:219 | the result is sorted by descending time and is a permutation of the input |
| Monitor.AppMonitor.GetAppTimes | clock/app_monitor.py:217-219 | the snapshot is sorted longest first, holds a pair exactly when it is an entry of app_times, has one entry per app, and reads app_times without changing it |
| Monitor.RetryOutcome | clock/app_monitor.py:223-242 | the outcome of the retry loop; a commit happens on one of the remaining tries, and that try committed |
| Monitor.RetryOutcomeIsFirstUnlocked | clock/app_monitor.py:223-242 | the save commits on the first of the five tries that is not locked, if that try commits; it is out of tries exactly when all five are locked; it raises only when a try fails in another way after locked tries only |
| Monitor.Upsert | clock/app_monitor.py:229-233 | one INSERT ... ON CONFLICT: the row for (day, app) exists afterwards and holds its old time (0 when new) plus the seconds; every other row keeps its value |
| Monitor.Deposit | clock/app_monitor.py:228-233 | the upserts of all apps in insertion order; no row is lost and every new row is for the given day |
| Monitor.DepositRows | clock/app_monitor.py:228-233 | the rows after a deposit are the old rows plus today's row for each app |
| Monitor.DepositAddsTimes | clock/app_monitor.py:228-233 | each app's seconds are added to today's row (a missing row counts as 0), and every other row keeps its value |
| Monitor.SavingTwiceDoublesTheRows | clock/app_monitor.py:221-236 | app_times is not cleared by a save, so two saves on the same day add each app's time twice |
| Monitor.AppMonitor.SaveFocusTimes | clock/app_monitor.py:221-242 | the outcome is the one RetryOutcome gives for the five tries; a commit deposits all of app_times into today's rows in insertion order; an exhausted or raised save leaves usage_data unchanged; app_times is never modified |
| Utils.FormatTime | clock/utils.py:43-62 | format_time's four branches as written; every output ends in " s", and FormatTimeRendersFields and FormatTimeRoundTrip state what it prints |
| Utils.UnitWord | clock/utils.py:51-62 | the seconds word is always "s"; any other unit word is singular exactly when its count is 1 |
| Utils.Decompose | clock/utils.py:49-61 | the four quotients recombine as d·86400 + h·3600 + m·60 + s = sec, with h < 24, m < 60 and s < 60; the leading quotient of each branch is non-zero |
| Utils.FieldsCount | clock/utils.py:46-62 | the branch taken decides how many parts are shown: 1 below a minute, 2 below an hour, 3 below a day, 4 from a day on |
| Utils.FormatTimeRendersFields | clock/utils.py:43-62 | format_time prints exactly the parts of the branch-free reference decomposition Fields, as "count unit" phrases |
| Utils.FieldsRecombine | clock/utils.py:45-62 | the parts shown add back up to the input |
| Utils.FieldsCanonical | clock/utils.py:46-62 | the parts shown run days, hours, minutes, seconds ending with seconds; each part after the first is below its radix; the first is non-zero unless it stands alone |
| Utils.FormatTimeRoundTrip | clock/utils.py:43-62 | reading back the printed text gives exactly the input number of seconds |
| Utils.FormatTimeExamples | clock/utils.py:46-56 | 59 gives "59 s"; -5 gives "-5 s"; 61 gives "1 min 1 s"; 3600 gives "1 hr 0 mins 0 s" |
| Text.IntRoundTrip | clock/utils.py:47 | the decimal text of an integer reads back as that integer |
| Schedule.ExpectedMinutes | clock/dynamic_schedule.py:41 | the expected minutes of a task: its stored expected_duration, or 25 when there is none |
| Schedule.Adjusted | clock/dynamic_schedule.py:38-46 | an update keeps the task's keys and every setting other than expected_duration |
| Schedule.AdjustedDirection | clock/dynamic_schedule.py:41-45 | a longer session adds exactly 5; a shorter one gives max(5, e - 5); an equal one changes nothing |
| Schedule.AdjustedKeepsFloor | clock/dynamic_schedule.py:45 | after a short session the expectation is at least 5, and an expectation of at least 5 stays so |
| Schedule.MissingExpectationRaises | clock/dynamic_schedule.py:41-45 | without a stored expected_duration, the update raises KeyError exactly when the session is not 25 minutes |
| Schedule.ShortSessionsReachFloor | clock/dynamic_schedule.py:44-45 | after k short sessions the expectation is max(5, e - 5k) |
| Schedule.AdjustmentKeepsExpectationsAtLeastFloor | clock/dynamic_schedule.py:38-46 | if every task's expectation is at least 5, it still is after any update |
| Schedule.DynamicSchedule.constructor | clock/dynamic_schedule.py:6-10 | no task is current and no start time is recorded |
| Schedule.DynamicSchedule.StartTask | clock/dynamic_schedule.py:24-26 | the task becomes current from the given time, whatever ran before |
| Schedule.DynamicSchedule.HasTask | clock/dynamic_schedule.py:30 | the truth test on current_task: false for None and for "" |
| Schedule.DynamicSchedule.AdjustSchedule | clock/dynamic_schedule.py:38-46 | a task with missing or empty settings is left alone and nothing is saved; otherwise the settings become Adjusted and are saved once, or a KeyError leaves everything as it was |
| Schedule.DynamicSchedule.EndTask | clock/dynamic_schedule.py:29-36 | without a task (None or "") nothing happens; otherwise the task's settings are adjusted for now minus the start time: missing or empty settings change nothing and save nothing, a KeyError leaves the settings and the save log as they were, and a success makes them Adjusted and saves them once; the task and start time are cleared unless the adjustment raised |
| Dates.Before | clock/calendar_view.py:156 | date comparison as Python does it, on (year, month, day); BeforeIsOrdinalOrder ties it to day numbers |
| Dates.BeforeIsOrdinalOrder | clock/calendar_view.py:156 | date comparison agrees with comparison of day numbers |
| Dates.NextDay | clock/calendar_view.py:167 | a day is added everywhere except on 9999-12-31, and the result is a valid date |
| Dates.PrevDay | clock/calendar_view.py:157 | a day is subtracted everywhere except on 0001-01-01, and the result is a valid date |
| Dates.NextDayIsSuccessor | clock/calendar_view.py:167 | the next day is exactly one day number later |
| Dates.PrevDayIsPredecessor | clock/calendar_view.py:157 | the previous day is exactly one day number earlier |
| Dates.PrevOfNext | clock/calendar_view.py:155-169 | stepping forward one day and then back returns the same date |
| Dates.AddDays | clock/calendar_view.py:183 | adding n days fails exactly when the result would lie past 9999-12-31; otherwise it is a valid date exactly n day numbers later |
| Dates.WithDay | clock/calendar_view.py:137 | replacing the day succeeds exactly when the day lies within the month's length; the result is a valid date of the same year and month whose day number moves by the change of day |
| Calendar.StepBack | clock/calendar_view.py:155-157 | the date moves back exactly one day if and only if it is after min_date; otherwise it is unchanged |
| Calendar.StepForward | clock/calendar_view.py:165-167 | the date moves forward exactly one day if and only if it is before today; otherwise it is unchanged |
| Calendar.DayStepsStayInRange | clock/calendar_view.py:155-169 | day steps keep min_date ≤ current_date ≤ today |
| Calendar.StepBackUndoesStepForward | clock/calendar_view.py:155-169 | a step forward is undone by a step back |
| Calendar.MonthBefore | clock/calendar_view.py:178 | the result is the last day of the preceding month, or 31 December of the year before; it fails only in January of year 1 |
| Calendar.MonthAfter | clock/calendar_view.py:183-184 | the result is the first day of the following month, or 1 January of the next year; it fails only in December 9999 |
| Calendar.FourDaysAfterTwentyEighth | clock/calendar_view.py:183 | day 28 plus four days lands in the following month whatever its length |
| Calendar.EarliestDate | clock/calendar_view.py:187-194 | with no dates the result is today; otherwise it is one of the dates and no date is earlier |
| Calendar.EmptyLedgerStartsToday | clock/calendar_view.py:194 | an empty usage table makes min_date today |
| Calendar.PreviousMonthIgnoresMinDate | clock/calendar_view.py:178 | from 2024-03-20 the previous month is 2024-02-29, which is before a min_date of 2024-03-15 |
| Calendar.CalendarView.constructor | clock/calendar_view.py:12-13 | the view opens on today, and min_date is the earliest date in the usage table (today when there is none) |
| Calendar.CalendarView.PreviousDay | clock/calendar_view.py:155-163 | the date becomes StepBack; "◀" is enabled exactly when the date is after min_date; "▶" is enabled exactly when it is before today |
| Calendar.CalendarView.NextDay | clock/calendar_view.py:165-173 | the date becomes StepForward; both buttons are then set by the same two rules |
| Calendar.CalendarView.PreviousMonth | clock/calendar_view.py:176-178 | the date becomes MonthBefore, with no clamp to min_date; at the lower end of the calendar it is unchanged and `ok` is false |
| Calendar.CalendarView.NextMonth | clock/calendar_view.py:181-184 | the date becomes MonthAfter, with no clamp to today; at the upper end of the calendar it is unchanged and `ok` is false |
| Calendar.CalendarView.SelectDate | clock/calendar_view.py:135-141 | the chosen day of the shown month becomes the date and both buttons are set by the day-step rules; a day the month lacks changes nothing and gives `ok` false |
| Calendar.CalendarView.ShowCalendar | clock/calendar_view.py:30-40 | the rebuilt "◀" starts enabled, and "▶" is disabled exactly when the date is today |

## Left out

- **Focus and browser introspection.** win32gui, uiautomation, AppKit and osascript (`clock/app_monitor.py:92-173`) are foreign platform calls. The resolved name reaches the model as a string, and window minimising is not modelled.
- **Threads and polling loops.** The loops, their lifecycle and the pynput listeners concern concurrency. The model keeps the body of one tick (`FocusTick`, `AfkTick`) and states traces of ticks with `Run`.
- **The OpenAI classifier and SQLite.** Their outcomes are oracle parameters. A failed SELECT, a classifier exception and a failed INSERT or commit each leave the category and the table unchanged. A save try is one transaction: a failure before the commit leaves `usage_data` unchanged.
- **The one-second sleeps** between save tries and between ticks are not modelled.
- **JSON file I/O.** `load_settings` and `save_settings` are not modelled; each save is recorded in the ghost log `saved`. A settings file without "tasks" behaves as one with no tasks.
- **The sleep-driven techniques** (pomodoro, custom techniques, eat the frog, time blocking) are timing only.
- **Other files.** `rename_app`, the GUI, the dashboard, the monthly grid and the usage table display, the statistics stub and the popup helpers are outside this model.
- **Floats.** Times are integers.
  - format_time takes `int(seconds)`, so the truncation of a float is not modelled.
  - Durations and `afk_threshold` are whole seconds.
  - `focus_time` is an integer.
  - `expected_duration` is an integer number of minutes.
- Monitor.AppMonitor.GetAppTimes: the result is stated sorted and a permutation of the entries. It is not stated that entries with equal times keep their insertion order, though `SortByTime` is written as a stable insertion.
- Monitor.HostOf: no lemma names the result for a URL whose first "//" comes after its third field, such as "a/b/c//d" (the result is "c"); scheme URLs, including a port or userinfo in the host, are covered by HostOfSchemeUrl, and "//" right after the second field by LaterDoubleSlashGivesEmptyHost.
- Monitor.AppMonitor.SaveFocusTimes: takes one `today` for the whole save. The code calls `date.today()` once per row (`clock/app_monitor.py:233`), so a save that crosses midnight splits its rows over two dates; the model does not capture that.

Three behaviours of the code that are easy to misread:

- The host is not lowercased.
- After five locked tries `save_focus_times` returns without raising.
- `tests/test_app_monitor.py:13-15` expects an entry of 1 after a single call of `_update_app_time`. The test does not reach that point: `setUp` builds `AppMonitor()` with no arguments (`tests/test_app_monitor.py:7`), while `__init__` requires `title`, `db_path` and `afk_threshold` (`clock/app_monitor.py:20`), so a TypeError is raised first. Even with a monitor built, one call records nothing: it is a change of focus, and `app_times` stays without an entry for the name (`Monitor.FirstSecondIsNotCounted`).
