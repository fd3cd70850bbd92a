# Report 455 automation: a verified model

The system downloads report 455 from the SSW web portal by driving a
browser.

The automation (`auto_455.py`) runs once for each of three months: the
current month and the two before it. For each month it:

- computes the date range and a file base name;
- logs in and fills the search form;
- reads the request number from the results table;
- waits 150 one-second ticks, refreshes, and clicks the download link of
  the row that carries that number;
- renames the newest file in the download folder to the base name.

A stop flag is read before each month and after each stage. A set flag
ends the run. Any other error ends only that month. The browser opened for
a month is always closed.

The control panel (`main.py`) has two parts:

- a schedule editor: a list of daily `HH:MM` times, kept sorted, without
  repeats, and saved after every change;
- an application window: it starts and stops the automation, allows at
  most one run at a time, and turns the daily scheduler on and off.

The model has these modules:

- `PyText` and `PyList` model the pieces of Python the code relies on:
  `str.strip`, `upper` and `lower`, `str(n)`, the `%02d` fields, string
  ordering, `sort` and `remove`.
- `Periods` models the period generator.
- `ResultsTable` models `capturar_seq` and `atualizar_relatorio`. The
  table is given as rows of cell texts.
- `DownloadFolder` models the rename. The folder is a map from file name
  to modification time, kept in a `Folder` class.
- `RunLoop` models the three-month loop of `main`. Each stage's outcome is
  supplied by the caller. The stop flag is given by the first reading that
  finds it set. The model records a trace of flag readings, stage starts
  and browser shutdowns.
- `ControlPanel` models `datetime.strptime(s, "%H:%M")` and the classes
  `App` and `ScheduleWindow`.

Three behaviours of the code that are easy to misread:

- **Two months back from January.** The code subtracts two from the month
  and wraps once, so month −1 becomes 11: from 2024-01-10 the third period
  is November 2023 (`011123` to `301123`, `NOV2023`; see
  `Periods.YearWrapExample`).
- **Month abbreviations.** `%b` is formatted under the `pt_BR` locale, so
  the base names carry Portuguese abbreviations (`FEV2024` for February
  2024). The model takes the table of abbreviations as a parameter
  (`Periods.February2024Name`).
- **Empty request number.** The turn tests `if seq:`, so the report search
  is skipped both when no request number was read and when the first cell
  of the row is empty.

## Model

| member | source | states |
|---|---|---|
| PyText.Strip | main.py:129 | `strip()` returns the slice between the leading and the trailing runs of Python white space (the 29 characters for which `str.isspace` holds). Both removed parts are all white space. The result neither starts nor ends with white space. |
| PyText.StripEmptyIffAllSpace | main.py:129-133 | The stripped entry is empty exactly when the entry is all white space. This is the case `add_schedule` refuses with "Por favor, insira um horário". |
| PyText.Upper | auto_455.py:255 | `upper()` keeps the length and upper-cases each ASCII letter in its place. |
| PyText.UpperIdempotent | auto_455.py:255 | The upper-cased abbreviation has no ASCII small letter, and upper-casing it again changes nothing. |
| PyText.Lower | auto_455.py:209 | `lower()` keeps the length and maps each character as it maps for a comparison with `"desktop.ini"`: ASCII capitals and the Kelvin sign. |
| PyText.DecimalString | auto_455.py:255 | `str(ano)` is a non-empty run of decimal digits with no leading zero. |
| PyText.DecimalStringRoundTrip | auto_455.py:255 | The digits of `str(n)` denote `n`. |
| PyText.DecimalStringOfFourDigitNumber | auto_455.py:255 | Years 1000 to 9999 print as exactly four digits. |
| PyText.Pad2 | auto_455.py:253-254 | A `%d`, `%m` or `%y` field is two digits that denote the number printed. |
| PyList.BelowIrreflexive | main.py:146 | No string sorts before itself. |
| PyList.BelowTransitive | main.py:146 | Python's string order is transitive. |
| PyList.BelowTotal | main.py:146 | Of two different strings, one sorts before the other. |
| PyList.BelowAsymmetric | main.py:146 | Two strings are never each before the other, and a string before another is different from it. |
| PyList.SortedDistinctIsIncreasing | main.py:141-146 | A sorted list without repeats is strictly increasing. |
| PyList.IncreasingIsSortedAndDistinct | main.py:141-146 | A strictly increasing list is sorted and has no repeats. |
| PyList.Insert | main.py:145-146 | Inserting into a sorted list gives a sorted list with exactly one more occurrence of the new element. |
| PyList.Sort | main.py:146 | `sort()` leaves the list sorted in Python's string order and a permutation of the original. |
| PyList.SortedPermutationsAreEqual | main.py:146 | Two sorted lists with the same elements are equal. So the sorted list does not depend on the sorting algorithm. |
| PyList.FirstIndex | main.py:158 | Returns the position of an occurrence of `x`, with no earlier occurrence. |
| PyList.RemoveFirst | main.py:158 | `remove(x)` drops the first occurrence of `x` and keeps everything else in order. |
| PyList.RemoveFirstShifts | main.py:158 | After `remove(x)`, the elements before the removed one stay in place and those after it move down one place. The list is one shorter. |
| PyList.RemoveFirstFromIncreasing | main.py:157-158 | Removing from a strictly increasing list keeps it strictly increasing. It takes out exactly `x` and nothing else, and shortens the list by one. |
| Periods.MonthsBack | auto_455.py:245-249 | The computed month is at most 12. It is at least 1 exactly when `back < month + 12`. Then it lies `back` months before the current month. The year drops by one exactly when `back >= month`. |
| Periods.DaysInMonth | auto_455.py:251 | `monthrange(y, m)[1]`: 29 for February of a leap year and 28 otherwise, 30 for April, June, September and November, and 31 for the rest. |
| Periods.MonthsFillTheYear | auto_455.py:251 | The twelve month lengths add up to 366 in a leap year and 365 otherwise. |
| Periods.FormatDDMMYY | auto_455.py:253-254 | The `%d%m%y` text is six digits. Its three two-digit fields are the day, the month and the year modulo 100. |
| Periods.PeriodFor | auto_455.py:244-255 | A period exists exactly when `datetime` accepts the computed month and year. When it does, the month is 1..12 and lies `back` months before today's. The last day is the month's length. Start and end are the `DDMMYY` texts of day 1 and of the last day. |
| Periods.BaseNameParts | auto_455.py:255 | The base name is the upper-cased abbreviation of the month followed by the year's decimal digits: four digits from year 1000 on. |
| Periods.LoopPeriodsDefined | auto_455.py:237-249 | For `i` in `range(3)`, every period is defined except those that would fall before year 1. The month is `month - i`, wrapped to the previous year exactly when `i >= month`. |
| Periods.LeapFebruaryExample | auto_455.py:244-255 | From 2024-03, one month back is February 2024: `010224` to `290224`, `FEV2024`. |
| Periods.YearWrapExample | auto_455.py:244-255 | From 2024-01, two months back is November 2023: `011123` to `301123`, `NOV2023`. |
| ResultsTable.CaptureSeq | auto_455.py:120-146 | Returns `None` when the flag is set at entry, when the table never appears, when the table has at most one row, or when row 1 has no cell. Otherwise it returns the first cell of row 1. |
| ResultsTable.CancellableWait | auto_455.py:163-165 | The wait is cancelled exactly when some tick reads the flag set. It stops at the first such tick. Otherwise all 150 ticks read the flag. |
| ResultsTable.DescribesUnique | auto_455.py:177-183 | The table determines the outcome of the search. |
| ResultsTable.FindRow | auto_455.py:177-183 | The search over the rows after the header stops at the first row whose first cell is the number. It reports a row without a cell, where `find_element` raises, if one comes first. Otherwise it reports that no row matches. |
| ResultsTable.CapturedRowIsFound | auto_455.py:136-183 | If the table is unchanged after the refresh, the search finds row 1, the row `capturar_seq` read. |
| ResultsTable.UpdateReport | auto_455.py:148-195 | Cancelled exactly when the entry check or a tick reads the flag set, after the first such reading. Otherwise the outcome is one of: the refresh fails exactly when the button is unavailable; no match; an unreadable row; a match without a `<u>` link; a match whose link is clicked. Each of these agrees with the refreshed table. |
| DownloadFolder.Candidates | auto_455.py:206-210 | The candidates are the listed names other than `desktop.ini` in any letter case. |
| DownloadFolder.CandidatesKeepOrder | auto_455.py:206-210 | The comprehension keeps listing order: the candidates of each prefix of the listing are a prefix of the candidates. |
| DownloadFolder.NewestIndex | auto_455.py:214 | `max` by modification time: no file is newer, and every earlier file in the listing is strictly older. So the first of several equally new files is chosen. |
| DownloadFolder.LastDot | auto_455.py:216 | Returns the position of a dot with no dot after it, or `None` when there is no dot. |
| DownloadFolder.SplitExt | auto_455.py:216 | `splitext` of a file name: root and extension concatenate to the name. The extension is empty or a dot followed by no other dot. It is non-empty exactly when some non-dot character comes before some dot. |
| DownloadFolder.Chosen | auto_455.py:206-214 | No file is chosen exactly when every listed name is `desktop.ini`. Otherwise the chosen file is a listed candidate at least as new as every other candidate, and it is listed no later than any other candidate of the same time. |
| DownloadFolder.NewestComesFirst | auto_455.py:206-214 | Every candidate at least as new as `max`'s pick is listed at or after the pick: of several newest files, the first in listing order wins. |
| DownloadFolder.NoCandidatesNoChange | auto_455.py:211-213 | A folder holding nothing but the shell artifact is left as it was. |
| DownloadFolder.RenameMovesNewest | auto_455.py:214-222 | Afterwards the target name holds the newest file's time, the chosen name is gone, and every other file is untouched. An older file of the target name is replaced. |
| DownloadFolder.RenameOntoItselfDeletes | auto_455.py:218-225 | When the newest file already has the target name, it is deleted, the failing rename is swallowed, and the folder loses that file. |
| DownloadFolder.StrictlyNewestIsChosen | auto_455.py:214 | A file strictly newer than every other candidate is chosen, whatever the listing order. |
| DownloadFolder.RenameTwiceKeepsSecond | auto_455.py:197-225 | Two downloads in a row for the same base name: the second one ends up under the target name, and neither remains under its own name. |
| DownloadFolder.Folder.Remove | auto_455.py:220 | `os.remove` takes the name out of the folder. |
| DownloadFolder.Folder.Rename | auto_455.py:222 | The Windows `os.rename` fails when the source is missing or the target exists, and fails without change. Otherwise the file moves to the new name with its time. |
| DownloadFolder.Folder.RenameNewest | auto_455.py:197-225 | `renomear_ultimo_arquivo_baixado` leaves the folder as `AfterRename` describes. It reports no candidates exactly when none exist, and otherwise the chosen file and `base + ext`. The rename fails exactly when the two names coincide. |
| RunLoop.GuardedStage | auto_455.py:259-263 | A stage raises exactly when it fails with the flag clear at its entry check. It proceeds exactly when it completes and the reading after it finds the flag clear. It then has used two readings, and has recorded the start of exactly that stage. |
| RunLoop.LoginAndForm | auto_455.py:259-263 | Login and form fill raise exactly when login fails with the flag clear at its entry, or login goes through with the next reading clear and the form fails with the flag clear at its entry. They proceed exactly when both complete and the fourth reading is clear. Then no reading saw the flag set, and exactly Launch, Login and FillForm have started. |
| RunLoop.CaptureStage | auto_455.py:264-266 | Reading the request number, then the flag: it stops exactly when the second reading sees the flag set. When it does not, or whenever a number was read, the number is the one `capturar_seq` reads from the table. |
| RunLoop.UpdateTriggers | auto_455.py:177-195 | An uncancelled search on a refreshed table where the request's row holds its link always clicks that link. |
| RunLoop.UpdateAndRename | auto_455.py:268-272 | The report outcome agrees with the refreshed table. It is cancelled exactly when the flag is set by the last tick's reading; otherwise the wait used all its readings. When it is not cancelled and the request has its link after the refresh, the download is triggered. The rename is asked for, with the month's base name, exactly when `atualizar_relatorio` returns `True`. A set flag was seen exactly when the report was cancelled. |
| RunLoop.Attempt | auto_455.py:257-277 | The stages begin in the order of the body, each at most once. The request number is the one in the table, and is recorded only when the capture stage ran. The report outcome is recorded exactly when the search stage ran, which happens only for a non-empty number. A recorded search is cancelled exactly when the flag is set by the wait's last reading, so a cancelled search has seen the flag set. An interrupted turn has seen the flag set. A set reading at a stage check ends the turn interrupted: the turn is interrupted exactly when the flag is set by the reading after the capture, and neither login nor form fill raised first with the flag clear at its entry. A stage that finds the flag set at its entry returns at once, whether or not it would have failed. A flag first set during the wait cancels the search, and the turn then finishes without a rename. A turn fails only through a failed login or form fill or an unreadable row, and a login or form fill that fails with the flag clear at its entry does fail it, before the table is read. With both through and the flag clear after the capture, the table is read and the report is sought for a non-empty number. With every stage succeeding and the flag clear through the wait, the rename is asked for with the month's base name and the turn finishes. |
| RunLoop.RunPeriod | auto_455.py:242-283 | The period is `PeriodFor(year, month, i)`. No driver is created before the period is computed and the browser starts. A created driver is quit exactly once, last. No stage starts after a reading that sees the flag set. The recorded request number and report outcome come only from stages the trace shows running, and a cancelled search has seen the flag set. A set reading at a stage check ends the turn interrupted: exactly when a driver exists, the flag is set by the reading after the capture, and neither login nor form fill raised first with the flag clear at its entry. With every stage succeeding and the flag clear through the wait, the month's download is renamed. |
| RunLoop.NoDriverTurn | auto_455.py:242-258 | A turn that ends before a driver exists is a failed turn with no quit, no rename and no table read. |
| RunLoop.QuitClosesTurn | auto_455.py:280-283 | Adding the `finally`'s `driver.quit()` closes a turn whose driver was created. |
| RunLoop.Turn | auto_455.py:238-240 | The flag test at the top of the loop ends the run exactly when the reading sees the flag set, and then no driver is created. Otherwise the turn for `i` months back runs, and renames its download when every stage succeeds and the flag stays clear through the wait. |
| RunLoop.Iteration | auto_455.py:237-279 | One turn keeps the loop's summary: earlier turns are unchanged, and the new turn is for its own month and well formed. An interrupted turn has seen the flag set. Without a stop request every turn on a portal where all stages succeed renames its download. |
| RunLoop.RunAutomation | auto_455.py:228-283 | At most three turns run, turn `k` for `k` months back, each well formed. No stage starts after a set reading. Only the last turn can have seen the flag set or have been interrupted. Fewer than three turns run only when the run was stopped at the top of the loop or interrupted. A flag set from the start gives no turn at all. Without a stop request all three turns run, and every turn on a portal where all stages succeed renames its download. From year 2 on, with all three portals succeeding, the three downloads are renamed to the three months' base names. |
| RunLoop.RunTurns | auto_455.py:237-279 | The loop ends after three turns, after a top-of-loop reading that finds the flag set (then fewer than three turns ran and none of them was interrupted), or after an interrupted turn, which has seen the flag set. Every turn is for its own month and well formed. Without a stop request every turn on a portal where all stages succeed renames its download. |
| RunLoop.AllDelivered | auto_455.py:237-272 | From year 2 on every month of the loop exists, so three turns that each rename a delivered download rename them to the three months' base names. |
| RunLoop.Conclude | auto_455.py:237-283 | What each of the loop's three exits (all turns done, stopped at the top, interrupted) leaves of the trace. |
| RunLoop.InterruptedSawStop | auto_455.py:275-277 | A turn that ends with `InterruptedError` has read the flag set. |
| ControlPanel.ParseTime | main.py:135-139 | An accepted time has hour below 24 and minute below 60. |
| ControlPanel.ParseTimeAccepts | main.py:135-139 | `strptime(s, "%H:%M")` accepts exactly the texts made of one or two digits up to 23, a colon, and one or two digits up to 59. It reads those two numbers. |
| ControlPanel.ParsePadded | main.py:135-139 | Every zero-padded `HH:MM` time is accepted and read back as the hour and minute it was written from. |
| ControlPanel.ParseUnpaddedHour | main.py:135-139 | `9:30` is accepted, as (9, 30). |
| ControlPanel.ParseUnpaddedMinute | main.py:135-139 | `09:5` is accepted, as (9, 5). |
| ControlPanel.ParseRejectsHour24 | main.py:135-139 | `24:00` is refused. |
| ControlPanel.ParseRejectsLongMinute | main.py:135-139 | `12:345` is refused, because text is left over. |
| ControlPanel.ParseRejectsLeadingSpace | main.py:129-139 | A leading space is refused by `strptime`. It is the `strip()` before it that lets such entries through. |
| ControlPanel.SameTimeTwoTexts | main.py:141-143 | `9:30` and `09:30` are the same time under two different texts, so the duplicate check, which compares texts, lets both in. |
| ControlPanel.AddKeepsTidy | main.py:145-146 | Appending a new accepted time and sorting gives a strictly increasing list of accepted times. It holds exactly the old entries plus the new time, and is one longer. |
| ControlPanel.AddedFacts | main.py:145-146 | The sorted list holds the new time, and it is tidy and one longer when the old list was tidy. |
| ControlPanel.RemoveKeepsTidy | main.py:157-158 | Removing a listed time keeps the list tidy. It takes out exactly that time and shortens the list by one. |
| ControlPanel.App.constructor | main.py:214-278 | No run is alive and there is no stop event. The saved times are registered, and the scheduler runs exactly when there are some. |
| ControlPanel.App.RegisterJobs | main.py:317-318 | One daily job is registered per time, in order. Nothing else changes. |
| ControlPanel.App.UpdateSchedules | main.py:311-328 | A non-empty saved list leaves the scheduler running with exactly those jobs. An empty one leaves it stopped with no jobs. |
| ControlPanel.App.StartScheduler | main.py:340-357 | Does nothing when the scheduler already runs or nothing is saved. Otherwise it registers the saved times afresh and the scheduler runs. |
| ControlPanel.App.StopScheduler | main.py:359-363 | The scheduler is stopped and no job is left. |
| ControlPanel.App.ToggleScheduler | main.py:330-338 | A running scheduler stops. A stopped one starts exactly when something is saved. The application stays consistent. |
| ControlPanel.App.StartAutomation | main.py:365-378 | While a run is alive nothing changes. Otherwise a fresh, clear stop event is installed and a run is marked alive. |
| ControlPanel.App.StopAutomation | main.py:380-385 | Sets the stop event if one exists, and does nothing otherwise. |
| ControlPanel.App.AutomationWorker | main.py:387-400 | The report is "critical error" exactly when `main` raised, and "interrupted" exactly when it returned with the event set. The run slot is free afterwards. |
| ControlPanel.ScheduleWindow.constructor | main.py:47-62 | The window's list is the saved one. |
| ControlPanel.ScheduleWindow.SaveAndRefresh | main.py:148-150 | The list is saved, and the jobs and the scheduler follow it. |
| ControlPanel.ScheduleWindow.AddSchedule | main.py:128-154 | An empty stripped entry, an entry `strptime` refuses, and a text already listed are each refused, exactly in those cases and with nothing changed. Otherwise the list becomes the sorted old list plus the time, is saved, drives the scheduler, and stays tidy and one longer. The entry is cleared. |
| ControlPanel.ScheduleWindow.AcceptTime | main.py:145-152 | Sort, save, refresh the jobs and clear the entry, keeping the list tidy. |
| ControlPanel.ScheduleWindow.RemoveSchedule | main.py:156-162 | A listed time is removed (its first occurrence, the rest in order) and the list saved. An unlisted text changes nothing. A tidy list stays tidy, without the time. |
| ControlPanel.ScheduleWindow.ClearAllSchedules | main.py:164-176 | An empty list gives "nothing to remove". The list is emptied, saved and the scheduler stopped exactly when the list was not empty and the answer is `CONFIRMAR`. Otherwise nothing changes. |

## Left out

- Selenium: every browser call and the fixed form values in `realizar_login` and `preencher_formulario`. Each stage is reduced to whether it completes, what table it shows and what the refresh shows.
- RunLoop.RunPeriod: the `finally`'s `driver.quit()` (auto_455.py:280-283) always succeeds in the model. In the code, an exception raised by `quit` escapes `main` and ends the whole run.
- `time.sleep` and the wall clock. Only the number of flag readings in the 150-tick wait is kept. Today's date is a parameter of `RunLoop.RunAutomation`.
- Threads, daemon flags and `threading.Event` beyond its boolean. `_scheduler_worker` and `schedule.run_pending` (main.py:402-410) are left out, because concurrency is not modelled.
- The locale setup (auto_455.py:28-31) and the `dotenv` credentials. The month abbreviations are a parameter.
- JSON reading and writing of `agendamentos.json`: the file is a field holding the last saved list. A file that fails to load is `None` and reads as `[]`; a save that fails is not modelled.
- The `schedule` library's `at(...)` (main.py:318 and main.py:349) is not modelled: a job is just its time. `at` raises for a daily time that is not zero-padded `HH:MM`, while the editor's `strptime` also accepts `9:30` and `09:5` (`ControlPanel.ParseUnpaddedHour`, `ControlPanel.ParseUnpaddedMinute`). Such a time is saved first, and then registering it raises.
- ControlPanel.App.RegisterJobs: holds only while every saved time is zero-padded `HH:MM`; for another time `at` raises part-way, after the jobs before it are registered.
- ControlPanel.App.UpdateSchedules: holds only while every saved time is zero-padded `HH:MM`; for another time the call raises after the save, inside the editor's callback.
- ControlPanel.App.StartScheduler: holds only while every saved time is zero-padded `HH:MM`; for another time it raises before the scheduler is marked running.
- ControlPanel.App.ToggleScheduler: holds only while every saved time is zero-padded `HH:MM`, for the same reason as `StartScheduler`.
- ControlPanel.App.constructor: holds only while every saved time is zero-padded `HH:MM`; a file holding another time makes `update_schedules` (main.py:278) raise, so the application does not start again.
- ControlPanel.ScheduleWindow.AddSchedule: holds only for a zero-padded `HH:MM` entry; an unpadded one is saved and then makes `update_schedules` raise, so the entry is not cleared.
- ControlPanel.ScheduleWindow.SaveAndRefresh: holds only while every saved time is zero-padded `HH:MM`, for the same reason as `UpdateSchedules`.
- ControlPanel.ScheduleWindow.AcceptTime: holds only while every saved time is zero-padded `HH:MM`, for the same reason as `AddSchedule`.
- ControlPanel.ScheduleWindow.RemoveSchedule: holds only while every time left in the list is zero-padded `HH:MM`; otherwise `update_schedules` raises after the save.
- customtkinter widgets and dialogs, the log, the status label, the button states, stdout redirection and the tray icon.
- RunLoop.RunAutomation: records the rename as a request for the month's base name and does not apply it to a `DownloadFolder.Folder`. The two are connected only through that base name.
- DownloadFolder.Folder: the folder holds plain files. Sub-directories, Windows' case-insensitive names and a failing `os.remove` are not modelled.
- DownloadFolder.SplitExt: applies `splitext` to the file name rather than to the joined path. The two give the same extension, because the name contains no separator.
- ControlPanel.ParseTime: `\d` is ASCII digits only. Python's regular expression also accepts other Unicode decimal digits.
- PyText.Lower: maps only ASCII capitals and the Kelvin sign. That is enough to decide equality with `desktop.ini`, but it is not all of `str.lower`.
- PyText.Upper: maps only ASCII small letters, which covers the locale's abbreviations. It is not all of `str.upper`.
