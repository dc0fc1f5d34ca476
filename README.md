# Exam calendar core, modelled in Dafny

This project models the exam-calendar logic of the school exam calendar, a Flask
application with two route files: `app.py` and its slimmer variant
`app_clean.py`. Flask, SQLite and the HTTP client are replaced by values. The
routes become functions and methods over an in-memory exam table, and the proofs
are about what those routes return and how they change the table.

The model is split into these modules:

- `Wrappers` (`wrappers.dfy`): the optional value.
- `PyStrings` (`strings.dfy`): Python's `str.strip()` and code-point string order. The same order is used by Python's `<` on `str` and by SQLite's `BINARY` collation on the `date` column.
- `Decimal` (`decimal.dfy`): decimal digits, zero padding as `strftime` writes it, and `str(n)`.
- `Dates` (`dates.dfy`): proleptic-Gregorian dates as Python's `date` has them (years 1 to 9999).
  - day numbers as in `toordinal`;
  - the `+ timedelta(days=1)` step;
  - `strftime('%Y-%m-%d')` and `strftime('%d.%m.%Y')`;
  - `strptime(s, '%Y-%m-%d')` with CPython's regular expression for each field.
- `ExamStore` (`exam_store.dfy`): the `exams` table as a class. It holds the rows in rowid order and an AUTOINCREMENT counter, and it answers the three queries the routes run: `ORDER BY date`, next-exam-on-or-after and `DELETE ... WHERE id = ?`.
- `Web` (`web.dfy`): the request method, form fields, whether the database answers, and the page a route renders or the redirect it returns.
- `Calendar` (`calendar.dfy`): the body of `events()` in `app.py`, written as the loops that build `events_list`. It covers the exam events, the holidays from ferien-api.de and the backup ranges.
- `App` (`app.dfy`): the routes of `app.py`.
- `AppClean` (`app_clean.dfy`): the routes of `app_clean.py` that differ from `app.py`.

Inputs that come from outside the program are parameters:

- today's date from the clock, as a `Date`;
- the outcome of `requests.get` on the holiday service;
- the form fields and the request method;
- whether the database connection and statements succeed (`DbStatus`);
- the exception message an outer handler receives.

What the two files do, and so what the model does:

- The next exam is the first row in date order with `date >= today`, compared as strings on the whole day.
- Deletion accepts any id, past or future.
- Holidays come from one fixed request to the holiday service, and the backup ranges are one fixed 2025/26 list.
- Adding an exam does not check the date's format: any non-blank stripped text is stored. So `App.NextExamIsChronological`, `Calendar.PastColorMeansBeforeToday` and `App.DateFilterOfIso` speak only about dates stored in canonical `YYYY-MM-DD` form.

## Model

| member | source | states |
|---|---|---|
| ExamStore.ExamTable.constructor | app.py:58-68 | a freshly created table has no rows, and the first id AUTOINCREMENT hands out is 1 |
| ExamStore.ExamTable.Insert | app.py:172-177 | appends exactly one row under the id `nextId`, which no existing row has; the counter moves on by one; earlier rows are unchanged; ids stay increasing and below the counter |
| ExamStore.ExamTable.DeleteWhereId | app.py:190-192 | the rows afterwards are the old rows without those carrying that id, in the same order; the counter is unchanged and the table invariant is kept |
| ExamStore.OrderByDate | app.py:98 | `ORDER BY date` returns every row exactly once (same multiset, same length), in non-decreasing date order by string comparison; the same query lists the rows at app.py:195 |
| ExamStore.InsertByDate | app.py:98 | one step of the ordering: the result holds the given rows plus exactly the inserted one |
| ExamStore.InsertByDateSpec | app.py:98 | inserting one row into a date-sorted list keeps it sorted and adds exactly that row |
| ExamStore.FirstOnOrAfterSpec | app.py:84-87 | on a date-sorted list the first row with `date >= today` is in the list, is not before today, is no later than any other such row, and is absent exactly when no row qualifies |
| ExamStore.FirstOnOrAfter | app.py:84-87 | the first row dated today or later is a row of the list and is dated today or later; there is none exactly when every row is dated before today |
| ExamStore.NextExam | app.py:84-87 | the row the query returns is in the table and dated today or later; there is none exactly when every row's date is before today as strings |
| ExamStore.NextExamSpec | app.py:84-87 | `WHERE date >= ? ORDER BY date LIMIT 1` gives a row dated today or later with the smallest such date, and gives none exactly when every row is dated before today |
| ExamStore.WithoutId | app.py:191 | a row survives `DELETE ... WHERE id = n` exactly when it was there and its id is not `n`; no rows are added |
| ExamStore.WithoutAbsentId | app.py:191 | deleting an id no row has leaves the table unchanged |
| ExamStore.WithoutPresentId | app.py:191 | with unique ids, deleting an id that a row has removes exactly one row |
| ExamStore.WithoutIdKeepsIdsIncreasing | app.py:191 | deletion keeps the ids in increasing rowid order |
| ExamStore.WithoutFreshId | app.py:174 | deleting the id of a row just inserted under a fresh id restores the rows as they were before the insert |
| ExamStore.IdOfText | app.py:191 | text that SQLite reads as an integer id is non-empty and is that integer's decimal digits, zero-padded to their count, after an optional sign, and a negative id is written with `-`; text starting with `-` never reads as a positive id, nor other text as a negative one; every digit string, and every `+` or `-` followed by digits, is read as an id |
| ExamStore.IdOfShownId | app.py:191 | the text `str(n)` of an id is read by SQLite's integer affinity as the id `n` |
| ExamStore.DeleteWhereText | app.py:191 | deleting by id text removes the rows with the id that text denotes and no other; text that denotes no integer removes nothing |
| Web.FormField | app.py:168-169 | `(form.get(name) or "").strip()` is empty exactly when the field is missing or holds only whitespace |
| PyStrings.Strip | app.py:168 | `strip()` never lengthens its input, and a non-empty result starts and ends with a non-whitespace character |
| PyStrings.StripShape | app.py:168 | `strip()` keeps one contiguous piece of the input and removes only whitespace before and after it |
| PyStrings.StripBlank | app.py:170 | a stripped field is blank exactly when the field held only whitespace |
| PyStrings.StripIdempotent | app.py:168 | stripping twice is stripping once |
| PyStrings.LexLess | app.py:103 | Python's `<` on `str` and SQLite's `BINARY` comparison: a proper prefix is smaller, and no string is smaller than itself |
| PyStrings.LexTrichotomy | app.py:103 | string `<` is total: exactly one of `a < b`, `a == b`, `b < a` holds |
| PyStrings.LexLessTransitive | app.py:103 | string `<` is transitive |
| PyStrings.LexNotLe | app.py:85 | `not (a <= b)` is `b < a`, which turns the query's `date >= today` into the route's `date < today` |
| Decimal.PadOrder | app.py:101 | numbers padded to a common width compare as strings exactly as they compare as numbers |
| Decimal.ValuePad | app.py:137 | a string of decimal digits reads as a number that pads back to the same string |
| Dates.Ordinal | app.py:137 | `toordinal()`: 0001-01-01 is day 1, and every date's day number lies after all days of earlier years and within its own year |
| Dates.OrdinalOrder | app.py:137 | one date is before another exactly when its day number (`toordinal`) is smaller |
| Dates.NextDay | app.py:137 | `d + timedelta(days=1)`: fails (OverflowError) exactly on 9999-12-31; otherwise it is a valid date whose day number is one more |
| Dates.NextDayIsSuccessor | app.py:137 | the next day is later than `d`, and no date lies strictly between the two |
| Dates.FormatIso | app.py:138 | `strftime('%Y-%m-%d')` of a date is ten characters long |
| Dates.FormatIsoOrder | app.py:103 | for `YYYY-MM-DD` strings written by `strftime`, string order is chronological order |
| Dates.ParseIso | app.py:137 | whatever `strptime(s, '%Y-%m-%d')` accepts is a valid calendar date in years 1 to 9999 |
| Dates.ParseFormatIso | app.py:137-138 | parsing what `strftime('%Y-%m-%d')` wrote gives back the same date |
| Dates.FormatParseIso | app.py:137-138 | a ten-character string that parses, with no space before the day, is exactly the `strftime` rendering of its date |
| Dates.FormatDisplay | app.py:223 | `strftime('%d.%m.%Y')` of a date is ten characters long |
| Dates.ParseDisplay | app.py:223 | a strictly read `DD.MM.YYYY` string denotes a valid date |
| Dates.ParseFormatDisplay | app.py:223 | reading back `DD.MM.YYYY` gives the date that was written |
| Dates.FormatParseDisplay | app.py:223 | every string read as `DD.MM.YYYY` is the rendering of its date |
| Calendar.ExamToEvent | app.py:103-112 | the event of one exam carries its id and subject, starts and ends at `date+"T"+time`, is red exactly when `date < today` as strings and blue otherwise, and has the border colour equal to the background |
| Calendar.Classify | app.py:129-146 | an element is skipped exactly when it is an object and either both dates are `2025-11-19` or a date is missing or empty; it raises exactly when it is not an object, or is not skipped and its end is rejected by `strptime` or is 9999-12-31; so every other element gives an event, a background event that keeps the element's `start` |
| Calendar.Emitted | app.py:129-146 | the loop appends at most one event per element, and all of them are background events |
| Calendar.ApiEvents | app.py:123-148 | a failed request, a status other than 200, or a body that is not JSON gives no events; otherwise at most one background event per element |
| Calendar.HolidayEvents | app.py:122-158 | the holiday part of the feed is never empty, is made of background events, and is either the service's events or the backup list |
| Calendar.UsableAnswerReplacesBackup | app.py:146-150 | when an element gives an event and no element before it raises, the holidays are exactly the service's events, with that element's event among them |
| Calendar.BuildEvents | app.py:100-158 | one event per exam, in the given order, with id, title, `date+"T"+time` start and end, red exactly when `date < today` and blue otherwise, border equal to background; the flag is set exactly when the service added an event; after the exams come the service's events when the flag is set and the six backup ranges otherwise |
| Calendar.AppendExams | app.py:102-112 | the exam loop appends exactly one event per exam, in order |
| Calendar.AppendHolidays | app.py:123-148 | the holiday loop appends exactly the events of the elements before the first one that raises; the flag is set exactly when it appended something |
| Calendar.AppendBackup | app.py:150-158 | the backup loop appends the six backup ranges, in order |
| Calendar.EmittedAppend | app.py:129-146 | until an element raises, the loop handles a list piece by piece |
| Calendar.AbortKeepsEarlierEvents | app.py:123-148 | an element that raises ends the loop: the events appended before it stay, and nothing after it is looked at |
| Calendar.PastColorMeansBeforeToday | app.py:103-104 | for dates stored as `YYYY-MM-DD`, red means exactly that the exam day is before today, and blue means it is today or later |
| Calendar.HolidayEndIsNextDay | app.py:135-145 | an emitted holiday ends on the day after the service's inclusive end date, one day later by day number across month ends, year ends and 29 February, and written as `YYYY-MM-DD` |
| Calendar.SkippedItemAddsNothing | app.py:133-135 | a skipped element contributes no event |
| Calendar.AllSkippedEmitsNothing | app.py:129-135 | a list whose every element is skipped contributes no event |
| Calendar.BackupWhenServiceGivesNothing | app.py:122-158 | if the request fails, the status is not 200, the body is not JSON, or every element is skipped, the holidays are exactly the six backup ranges |
| Calendar.IntendedEventsNeverEmpty | app.py:150-158 | the intended list always has more events than there are exams |
| Calendar.BackupRangesWellFormed | app.py:114-121 | every backup range has two canonical `YYYY-MM-DD` dates, and its start comes before its end both as days and as strings |
| App.Index | app.py:79-91 | the landing page names an exam dated today or later with the smallest such date, names none exactly when every exam is before today, and names none when the database fails; `index()` in `app_clean.py` (lines 40-57) runs the same query with the same handler |
| App.IsoDateOrder | app.py:103 | canonical date strings compare as strings exactly as their days compare |
| App.NextExamIsChronological | app.py:83-87 | when all stored dates are canonical, the next exam is the earliest exam not before today by calendar, and there is none exactly when every exam is before today |
| App.EventsBody | app.py:95-159 | a database failure raises its message; a local `datetime` raises UnboundLocalError; otherwise the body returns the exams ordered by date followed by the holidays |
| App.Events | app.py:94-162 | as written, the events feed is empty for every table, clock and holiday response |
| App.EventsIntended | app.py:94-162 | with the module-level `datetime`, the feed is the exams ordered by date plus the holidays, longer than the table; a database failure gives the empty list |
| App.ShadowedDatetimeLosesEvents | app.py:128 | while the database answers, the route as written returns nothing where the intended route returns at least every exam |
| App.AddExam | app.py:164-182 | GET shows the form. A POST with a blank subject or date shows the German error and inserts nothing. A database error shows `Fehler: ` plus the message and inserts nothing. Otherwise one row is appended with the stripped fields, grade `4A` and times 08:00 to 16:00, and the route redirects to the landing page |
| App.DeleteExam | app.py:184-199 | a POST with a non-blank id deletes exactly the rows with the id that text denotes and redirects back; anything else lists every exam ordered by date; a database error lists nothing and shows the message; the id counter never changes; `delete_exam()` in `app_clean.py` (lines 117-142) has the same branches and handler |
| App.DeleteShownId | app.py:188-191 | posting an id exactly as `str(id)` prints it survives `strip()` and deletes exactly the rows with that id |
| App.DateFilter | app.py:219-225 | a string `strptime` accepts is shown as ten characters that read back as the same day in `DD.MM.YYYY`; any other string is returned unchanged |
| App.DateFilterOfIso | app.py:219-225 | a date stored in canonical `YYYY-MM-DD` form is shown as that day in `DD.MM.YYYY` |
| AppClean.CleanEvent | app_clean.py:70-77 | the event of one exam carries its id, is titled `subject (grade)`, starts and ends at `date+"T"+time`, and is blue in both colours whatever the date |
| AppClean.BuildCleanEvents | app_clean.py:68-77 | one event per exam, in order, titled `subject (grade)`, with `date+"T"+time` start and end, and both colours `#007bff` whatever the date |
| AppClean.Events | app_clean.py:59-81 | the feed lists every exam exactly once, in date order, as a blue event; any database error gives the empty list |
| AppClean.AddExam | app_clean.py:83-115 | GET shows the form; a blank subject or date shows the German error and a database error `Fehler: ` plus the message, both inserting nothing; otherwise one row with the stripped fields, grade `4A` and times 08:00 to 16:00 is appended under a fresh id and the route redirects to the landing page |

## Findings

| source | as written | input that shows it | evidently intended | confidence | as-written member | corrected member |
|---|---|---|---|---|---|---|
| app.py:101 | `from datetime import datetime, timedelta` at app.py:128 makes `datetime` a local name for all of `events()`. So `datetime.now()` at line 101 raises UnboundLocalError, and the handler at lines 160-162 returns `[]` | any GET of `/events` while the database answers, with any rows and any holiday response | the exams coloured by date, then the service's holidays or the backup ranges | high, not executed | App.Events | App.EventsIntended |

`App.ShadowedDatetimeLosesEvents` puts the two side by side on the same input.
The helpers in `Calendar` model the body as it would run without the shadowing.

## Left out

- Browser code (`static/face.js`, `static/sw.js`, `static/offline.js`), the desktop client and the ad-hoc test and admin scripts: camera and cache I/O, floating point and HTTP calls, none of which is exam-calendar logic.
- The initialisation lock and the `_init_done` flag in `init_db`: they exist only for concurrent requests. A database failure during this before-request hook produces an HTTP 500 outside any route, and that is not modelled.
- `init_db()` in `app_clean.py` catches its own errors and returns `False`; the model takes the table as existing. Its schema has no column defaults, which matters only for the `app.py` insert, and that insert uses the `app.py` schema.
- SQLite connections, PRAGMAs and the database file path. The only effect of the database modelled is on the result: it either answers (`DbUp`) or raises with a message (`DbDown`), the same on every statement of one request.
- Where a route's database error happens partway (after connecting but before the commit), the model takes it as happening before any change. With SQLite's transactions, no partial insert or delete is left behind either way.
- `render_template`, `redirect`, `url_for` and `jsonify` are modelled as the values they are given (`Page`, `Event`), with no HTML or JSON text.
- The `/health`, favicon and apple-touch-icon routes: they are file serving and diagnostics.
- The `created_at` column and the `datetime.now().isoformat()` written into it: it is a wall-clock value; the routes read it only inside the `SELECT *` rows they hand to the templates, which are not modelled, and `Exam` has no such field.
- The holiday service URL, the 5-second timeout and the logging `print` calls.
- Dates.ParseIso: `%Y`/`%m`/`%d` in CPython's `strptime` use `\d`, which also matches non-ASCII decimal digits. The model accepts ASCII digits only.
- Dates.FormatIso: glibc's `strftime('%Y')` does not pad years below 1000 to four digits. The model always pads, as CPython's own implementation does; it only matters for dates before the year 1000.
- Dates.FormatDisplay: the same `%Y` padding gap for years below 1000, and so for the output of App.DateFilter.
- ExamStore.IdOfText: SQLite also converts text such as `5.0` or `1e1` to an integer for `id = ?`, and reads digit strings beyond the 64-bit range as a REAL. The model accepts only an optional sign and decimal digits, with no range limit.
- ExamStore.OrderByDate: SQL leaves the order of equal dates open. The model keeps equal dates in rowid order. OrderByDate's own contract promises only date order plus the same rows, but the route contracts stated through it (App.EventsBody, App.EventsIntended, App.DeleteExam, AppClean.Events) fix that rowid tie order, which SQLite does not guarantee.
- ExamStore.ExamTable.Insert: the 64-bit limit of INTEGER PRIMARY KEY AUTOINCREMENT (SQLITE_FULL after 9223372036854775807) is not modelled; ids are unbounded.
- Calendar.Classify: only what the holiday elements are matters here: an object whose `start` and `end` are strings or absent, or something that is not an object. Numbers, lists and other JSON values under `start`/`end` are not modelled. A body that is JSON but not a list is covered only where iterating it raises on the first element, as iterating a dict's string keys does.
- The exception message text of the outer handlers is an input; only the `UnboundLocalError` text of CPython 3.11+ is written out.
- The `strftime` filter's other format strings: only the default `%d.%m.%Y` is modelled. The HTML templates are not part of this model, so which formats they pass, and what the delete page posts as `exam_id`, is not known here.
