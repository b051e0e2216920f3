# Timetable to Google Calendar: a Dafny model

The application reads a university timetable, uploaded as a spreadsheet, and turns each
lesson into a weekly recurring event on the user's primary Google Calendar. It is a Flask
form backed by two Python files:

- `google_calendar.py` holds the work. `tao_su_kien` turns one lesson (subject, room,
  instructor, start and end dates, a Vietnamese weekday number, start and end times) into a
  weekly event body and inserts it. `xoa_su_kien_tkb` deletes every listed event whose title
  starts with a prefix (by default `[TKB]`) and returns how many it deleted.
- `app.py` holds the POST handler of the form. It reads the reminder settings and the
  prefix, converts the reminder to minutes, and calls `tao_su_kien` once per usable row,
  in order, inside one `try`.

The project is split into five modules:

- `Results` (results.dfy) holds `Option`, `Result`, and the exceptions the code can raise.
- `Text` (text.dfy) holds `str.startswith`, zero-padded decimal fields and a parser for them.
- `Dates` (dates.dfy) models the part of Python's `datetime` the code relies on:
  - proleptic Gregorian dates from 1/1/1 to 31/12/9999;
  - `toordinal` and `weekday`;
  - the step `date + timedelta(days=1)`, which raises OverflowError after 31/12/9999;
  - `isoformat`.
- `GoogleCalendar` (google_calendar.dfy) models the two functions of `google_calendar.py`:
  - the weekday map;
  - the anchor search, as a `while` loop proved against a closed-form specification;
  - the event body and its RRULE;
  - the calendar service as a class `Service` whose `items` change with each insert and
    delete;
  - the purge loop.
- `App` (app.dfy) models the POST handler:
  - the form defaults and the in-place conversion to minutes;
  - the reminder list;
  - the skip rule;
  - the creation loop, with its abort on the first exception.

The calendar service is a gateway object. `items` is what a list request returns, in its
order. `requests` counts the requests made so far. The constant `refusals` holds the numbers
of the requests the service answers with an error. Every network failure is described this
way.

Behaviour of the code worth knowing:

- The docstring of `xoa_su_kien_tkb` (google_calendar.py:114) promises to delete every event
  with the prefix, but the code scans one list page of at most 2500 events. Events beyond it
  survive (`GoogleCalendar.PurgeSpares`).
- The weekday map is not `(weekday - 2) mod 7`. Every value below 2 becomes 6, and so does 8.
  From 9 on, the result is above 6.
- For a weekday of 9 or more, the anchor search does not run forever. It steps one day at a
  time up to 31/12/9999, and the next step raises OverflowError. The model returns
  `Err(DateOverflow)` and places no precondition on the weekday.
- The creation loop does not go on after a failing row. The first exception ends the `try`.
  Events created before it stay created, and later rows are never submitted.
- Skipped rows are not counted.
- The purge also stops at its first failing request. The events deleted before it stay
  deleted.
- The POST handler never calls the purge. Submitting the same timetable twice adds the
  events again.

## Model

| member | source | states |
|---|---|---|
| GoogleCalendar.GoogleWeekday | google_calendar.py:68-71 | a weekday number up to 8 maps into Monday-first 0..6; from 9 on the result lies outside 0..6 |
| GoogleCalendar.GoogleWeekdayCases | google_calendar.py:69-71 | 2..7 map to 0..5; every value below 2 and also 8 map to 6 (Sunday); the map equals (weekday - 2) mod 7 on 1..8 and differs from it on 0 and on every value from 9 on |
| GoogleCalendar.FindAnchor | google_calendar.py:74-76 | the day-by-day search loop terminates and returns the closed-form anchor: the start date plus the distance to the target weekday, or DateOverflow when the search would pass 31/12/9999 |
| GoogleCalendar.AnchorIsEarliestMatch | google_calendar.py:74-76 | Anchor, the search's result in closed form: the anchor has the target weekday, lies 0 to 6 days after the start date, and no earlier day from the start date on has that weekday; it is the start date itself when that matches; the search fails, always with DateOverflow, exactly when no date from the start date up to 31/12/9999 has the target weekday |
| Dates.NextDay | google_calendar.py:76 | `current += timedelta(days=1)` gives a valid date whose ordinal is one more; it raises (None) exactly at 31/12/9999 |
| Dates.AddDaysInRange | google_calendar.py:74-76 | AddDays, n steps of `timedelta(days=1)`: from a valid date they stay in range exactly when its ordinal plus n does not pass that of 31/12/9999, and (its own ensures) land on the date whose ordinal is n more |
| Dates.DistanceReachesTarget | google_calendar.py:75-76 | walking the distance from an ordinal reaches the target weekday within six days, and no day before that has it |
| Dates.OrdinalBounds | google_calendar.py:74-76 | Ordinal (`toordinal`): every valid date has an ordinal from 1 to that of 31/12/9999 |
| Dates.OrdinalEnd | google_calendar.py:75 | Ordinal and Weekday (`toordinal`, `weekday`): 31/12/9999 has ordinal 3652059 and is a Friday (4) |
| Dates.WeekdayExample | google_calendar.py:75 | Weekday (`weekday`, Monday 0): 14/10/2026 is a Wednesday (2) |
| Dates.WeekdayAdvances | google_calendar.py:75-76 | Weekday: from each valid date to the next the weekday advances by one, Sunday wrapping to Monday |
| Dates.IsoRoundTrip | google_calendar.py:78-92 | IsoFormat, the `isoformat` text of the start and end: the text of a date and time reads back to the same date and time |
| GoogleCalendar.WeeklyRuleRoundTrip | google_calendar.py:94-96 | WeeklyRule: the RRULE text `RRULE:FREQ=WEEKLY;UNTIL=YYYYMMDDT235959Z` reads back to exactly the end date it was built from |
| GoogleCalendar.EventSpecSucceeds | google_calendar.py:64-101 | EventSpec (parse the dates, map the weekday, search the anchor, parse the times, then EventBody): it succeeds exactly when both dates and both times are well formed and some date from the start date up to 31/12/9999 has the mapped weekday; there is no check that start precedes end or that the end date follows the anchor; a malformed date always gives MalformedDate, and a weekday of 9 or more with valid dates gives DateOverflow |
| GoogleCalendar.EventSpecShape | google_calendar.py:78-101 | EventBody as EventSpec returns it: the title is the prefix, a space and the subject, so it starts with the prefix; the location is the room; the description is `Giảng viên: ` and the instructor; start and end fall on the anchor date at the start and end times, both in Asia/Ho_Chi_Minh; there is exactly one recurrence rule and its UNTIL is the end date; useDefault is false; overrides are the given list, or empty when none is given |
| GoogleCalendar.OverridesCases | google_calendar.py:97-100 | Overrides: with no reminder list there are no overrides; a given list, empty or not, is used as it is |
| GoogleCalendar.Translate | google_calendar.py:64-101 | the steps of tao_su_kien before the insert compute the event body, or the first exception, that EventSpec specifies |
| GoogleCalendar.Page | google_calendar.py:122-128 | the single list page holds at most 2500 events: the stored events in order, all of them when there are no more than 2500 |
| GoogleCalendar.Service.Insert | google_calendar.py:103-104 | an accepted insert appends the event under a fresh id and returns that id; a refused one changes nothing; both count one request and keep the ids distinct |
| GoogleCalendar.Service.List | google_calendar.py:122-128 | a list request returns the first page of stored events, or an error when refused; it counts one request |
| GoogleCalendar.Service.Delete | google_calendar.py:133 | an accepted delete of a stored id removes exactly the events with that id; a refused delete, or one of an id not stored, changes nothing |
| GoogleCalendar.CreateWeeklyEvent | google_calendar.py:64-106 | an exception while building the body makes no request and changes nothing; otherwise one insert request is made, and when accepted the built event is stored under the returned id |
| GoogleCalendar.PurgeByPrefix | google_calendar.py:112-137 | the purge succeeds exactly when the list request and one delete per selected event are all accepted; it then returns the number of selected events and has removed exactly those, where the selected events are the events of the first page whose title is present and starts with the prefix, in list order; on a failure either the list request was refused and nothing changed, after one request, or the first refused request is the delete of the (j+1)-th selected event: the list and the j deletes before it were accepted, exactly the first j selected events are gone, and j + 2 requests were made |
| GoogleCalendar.SelectedMembers | google_calendar.py:131-132 | Matches and Selected, the purge's filter over the list: an event is selected exactly when it is on the page and has a title that starts with the prefix; the selection has only ids from the page and is no longer than it |
| GoogleCalendar.SelectedAllMatch | google_calendar.py:131-132 | Selected: a list whose events all have a title starting with the prefix is selected whole, in its order |
| GoogleCalendar.PurgeSpares | google_calendar.py:122-133 | an event with no title, with a title that does not start with the prefix, or beyond the first page is not deleted |
| GoogleCalendar.DropIds | google_calendar.py:133 | deleting by ids removes exactly those ids and keeps the stored ids distinct |
| GoogleCalendar.DropMembers | google_calendar.py:133 | an event survives deletion by ids exactly when its id is not among them |
| App.MinutesByUnit | app.py:21-25 | Minutes, the unit table: `giờ` multiplies the value by 60 and `ngày` by 1440; any other unit, the default `phút` included, leaves it unchanged; a day is 24 hours |
| App.ReminderList | app.py:16-44 | the reminder list has exactly one entry; its method is the one sent, or popup when none is; its minutes are the value sent (10 when none is) times 60 for `giờ`, times 1440 for `ngày`, and unchanged for a missing or any other unit; an empty form gives a popup 10 minutes ahead |
| App.EmptyFormDefaults | app.py:16-19 | with no field sent, the reminder is a popup 10 minutes ahead and the prefix is `[TKB]` |
| App.ReadForm | app.py:16-25 | reading the fields with their defaults and multiplying the value in place yields exactly the reminder list and the prefix given by the form |
| App.KeptRows | app.py:46-48 | Skipped, LessonOf and Kept: every row with both times and a non-zero weekday has its lesson, with the row's fields passed one to one, in the list the loop submits from, in row order, and every lesson in that list comes from such a row; there are no more lessons than rows; a table whose rows are all skipped gives an empty list |
| App.SyncOutcome | app.py:41-66 | Sync and SyncRows, the loop as a function of the built events: it creates the events of the first lessons in order, each on an accepted request; with no failure it has created every lesson and made one request per lesson; otherwise the next lesson failed, either while building its body (no request made, that error) or on a refused insert (one request made, GatewayError), and no later lesson was submitted |
| App.SyncSucceeds | app.py:41-64 | the try block completes exactly when every usable row builds an event and every insert is accepted |
| App.SyncSplit | app.py:46-62 | running the loop over two parts in turn is running it over the first part and, if that completed, over the second part with the following request numbers |
| App.SyncTagsEvents | app.py:44-62 | every created event has a title that starts with the form's prefix, and the form's one-element reminder list as its overrides, with useDefault false |
| App.InsertedMatch | app.py:41-66 | every event a run stores passes the purge's title filter for the same prefix |
| App.PurgeSelectsRun | google_calendar.py:122-134 | when the calendar before a run and the run's events fit on one list page, a later purge with the same prefix selects what it selected before, followed by every event the run stored, in creation order; beyond that page PurgeSpares shows they survive |
| App.SyncRepeats | app.py:41-66 | two completed runs over the same rows create the same events, so a second submission adds them again rather than replacing them |
| App.ProgressIsSync | app.py:46-62 | the row-by-row state of the loop agrees with the run over the usable rows seen so far while nothing has failed, and with the run over all rows once something has |
| App.SubmitRow | app.py:50-62 | one call of tao_su_kien with the row's fields passed one to one: it succeeds exactly when the body builds and the insert is accepted, and then stores that event under the next id |
| App.SubmitRows | app.py:46-62 | the loop with `continue` leaves the calendar as before with the created events appended under consecutive ids; its request count and its failure are those of the row-by-row run |
| App.Index | app.py:41-66 | a failure to read the table or to log in ends the request with that error and changes nothing; otherwise the calendar keeps every event it had, gains exactly the events of the run over the usable rows with the form's reminders and prefix, and the request ends with the success message or with the first exception |

## Left out

- Login (`dang_nhap_google`, google_calendar.py:16-36) is not modelled. It does OAuth through a browser and reads and writes token files. Its success is the boolean `authenticated` of `App.Index`.
- Reading the spreadsheet (`doc_tkb`) is not part of this model. Its result is an input: the rows, or `Err(ReadError)`.
- The Flask routing, the file upload checks and the save (app.py:1-14, 27-38), `flash`, `redirect`, `render_template` and `app.run` are web plumbing. The outcome of `App.Index` stands for the flashed message.
- `print` output (google_calendar.py:34, 105, 136) is left out.
- The network calls `insert`, `list` and `delete` are the methods of the `Service` class. Transport errors, rate limits and the real calendar's id format are the set `refusals` and plain numbers.
- `int(request.form.get("remind_value", 10))` sits outside the `try` (app.py:16). Its text parsing, and the server error on non-numeric input, are not modelled: `Form.remindValue` is already an integer.
- Dates and times reach the model as (day, month, year) and (hour, minute) triples. A text that `strptime` would reject is a triple that is not valid, so it fails with MalformedDate or MalformedTime. Whitespace, single-digit fields and other `strptime` leniency are not modelled.
- The round trip through `strftime('%d/%m/%Y')` and `strptime` on google_calendar.py:78-79 is taken as the identity on the anchor date. It is not one for an anchor year below 1000: glibc's `strftime('%Y')` writes the year unpadded, `strptime`'s `%Y` then rejects it, and line 78 raises ValueError, which the model does not produce.
- GoogleCalendar.WeeklyRule: writes the year with four digits. glibc's `strftime('%Y')` does not pad years below 1000, so for those years the rule text differs from Python's.
- `singleEvents=True` in the list request expands recurring events into instances with their own ids. The model lists stored events as they are, in stored order, and does not model `orderBy='startTime'`.
- A deleted id is taken to remove every event the list showed under that id. Deleting one instance of a recurring series is not modelled.
- Python exceptions are one `Error` constructor per cause. Their messages are not modelled.
