# Student attendance by QR code — a Dafny model

This project models the core of a small attendance system. A Flask server keeps students, activities, users and attendance rows. Staff open an activity's scanning page, where the browser reads a student's QR code from the camera and posts the decoded payload to the server. The server records at most one attendance per student and activity.

The model covers:

- **Browser, scanning page:** the scanner's state machine (start, stop, per-frame loop, the 500 ms duplicate filter), the start/stop button and the handling of the server's reply.
- **Browser, other pages:** CSV export of tables, the table search with its "no results" row, date defaulting, table wrapping, the QR generator (options, flat or embossed rendering, the emboss pixel loop, mode button, download name) and the chart helpers.
- **Server:** the records and their methods, the form validators, the admin guard and QR payload helper, and the routes that record scans, gate the scanning page, add, edit and delete records, and filter the report.

Every operation is a pure function over immutable values. The database is a value: maps keyed by primary key plus the attendance rows in insertion order. The camera, the QR decoder, `fetch`, clocks and database failures are parameters.

Modules, one per source file or component:

- `Wrappers`, `Feedback` (flash and alert categories) and `Json` (abstract JSON values);
- `JsText` (JavaScript string helpers: white space, `trim`, case, digits);
- `QrScanner`, `CsvExport`, `PageScripts`, `QrGenerator` and `Charts` for the browser scripts;
- `Models`, `Forms`, `Utils` and `Routes` for the server;
- `Pipeline`, which follows one QR code from registration to the page's list.

## Model

| member | source | states |
|---|---|---|
| QrScanner.NewScanner | static/js/qr_scanner.js:7-16 | A new scanner is idle and holds no camera. It has no remembered payload, and its last time is 0. |
| QrScanner.OnDecode | static/js/qr_scanner.js:90-102 | A decoded payload is forwarded iff it differs from the last forwarded one or more than 500 ms have passed. Only a forwarded payload updates the memory, and the callback, if any, receives exactly that payload. |
| QrScanner.FirstDecodeForwarded | static/js/qr_scanner.js:13-14 | A fresh scanner forwards its first decoded payload at any time. |
| QrScanner.BoundaryOfInterval | static/js/qr_scanner.js:93-94 | The rate limit is strict: a repeat exactly 500 ms later is suppressed and a repeat 501 ms later is forwarded. |
| QrScanner.ForwardsAreSpaced | static/js/qr_scanner.js:92-102 | Over any series of decodes, each pair of consecutive forwarded payloads differs or lies more than 500 ms apart, and the first one passes the limit against the starting memory. |
| QrScanner.ForwardsLast | static/js/qr_scanner.js:95-96 | After a series of decodes, the remembered time is that of the last forwarded payload, or the starting time when none was forwarded. |
| QrScanner.ForwardsLastCode | static/js/qr_scanner.js:92-96 | After a series of decodes, the remembered payload is the last one decoded, forwarded or not. |
| QrScanner.ForwardsFromInput | static/js/qr_scanner.js:86-102 | Only decoded payloads are forwarded, each with the time it was decoded. |
| QrScanner.ChangedPayloadForwarded | static/js/qr_scanner.js:93 | A payload that differs from the one decoded just before it is always forwarded. |
| QrScanner.ExampleRun | static/js/qr_scanner.js:93-96 | The same payload at 0, 200 and 600 ms is forwarded at 0 and 600 only. |
| QrScanner.ScanFrame | static/js/qr_scanner.js:55-110 | A frame does nothing when not scanning. It reschedules iff scanning, and a frame that is not ready or holds no code changes nothing. |
| QrScanner.StartScanning | static/js/qr_scanner.js:18-42 | The start succeeds iff the camera is granted; a denial changes nothing. A grant attaches the stream and keeps the duplicate memory. Starting from idle keeps "scanning iff holding a stream". |
| QrScanner.StartTwiceAbandons | static/js/qr_scanner.js:18-42 | There is no re-entry guard, so a second granted start drops the stream of the first. |
| QrScanner.StopScanning | static/js/qr_scanner.js:44-53 | Stopping clears the flag and releases the stream, with every track stopped. Without a stream it only clears the flag. The duplicate memory is kept. |
| QrScanner.StopIdempotent | static/js/qr_scanner.js:44-53 | Stopping twice equals stopping once, and the second stop releases nothing. |
| QrScanner.RestartKeepsSuppression | static/js/qr_scanner.js:44-53 | After a stop and a restart, the payload decoded last before the stop is still suppressed within 500 ms. |
| QrScanner.ToggleClick | static/js/qr_scanner.js:224-241 | A click that the camera answers before anything else happens. When idle, a grant gives "Stop Scanning" with an info alert, and a denial gives the permissions alert and no change. When scanning, a click stops and shows "Start Scanning". From a consistent state no stream is dropped. |
| QrScanner.PressAsWritten | static/js/qr_scanner.js:224-241 | A click when not scanning only adds a pending camera request, even when one is already pending. A click while scanning stops at once and shows "Start Scanning". |
| QrScanner.Answer | static/js/qr_scanner.js:18-42 | A camera answer with nothing pending changes nothing. Otherwise it settles one request. A denial adds the permissions alert and changes nothing else. A grant attaches the new stream, shows "Stop Scanning" with the info alert, and counts the stream it replaced as dropped. |
| QrScanner.TickUi | static/js/qr_scanner.js:55-110 | A frame never starts or stops the scanner and touches nothing outside it. |
| QrScanner.RunAsWritten | static/js/qr_scanner.js:224-241 | Over any run of clicks, camera answers and frames, the scanner holds the camera iff it is scanning. Dropped streams stay dropped. |
| QrScanner.DoubleClickAbandons | static/js/qr_scanner.js:224-228 | Two clicks before the camera answers, then two grants: the first stream is dropped while still live, and the second is attached. |
| QrScanner.PressGuarded | static/js/qr_scanner.js:224-241 | With the guard, a click while a request is pending is ignored. Otherwise it acts as the click as written. |
| QrScanner.Run | static/js/qr_scanner.js:224-241 | With the guard, any run of clicks, answers and frames keeps at most one request pending, and only while idle. The scanner holds the camera iff it is scanning, and no live stream is ever dropped. |
| QrScanner.DoubleClickGuarded | static/js/qr_scanner.js:224-228 | With the guard, the same double click asks once: the first stream stays attached and nothing is dropped. |
| QrScanner.PressThenAnswer | static/js/qr_scanner.js:224-241 | A click followed at once by the camera's answer equals `ToggleClick` in scanner, button, alerts and dropped streams. |
| QrScanner.Submit | static/js/qr_scanner.js:165-185 | A request is sent iff the page has both the data field and the form. It carries the activity id, the exact payload and the CSRF token. |
| QrScanner.FramePost | static/js/qr_scanner.js:86-185 | One frame sends a request iff the scanner is scanning and has a callback, the frame holds a code that passes the rate limit, and the page has the data field and the form. The request carries exactly the decoded payload. |
| QrScanner.RepeatWithinIntervalNotPosted | static/js/qr_scanner.js:92-101 | The same payload within 500 ms of the last forwarded one sends nothing. Once more than 500 ms have passed it is sent again. |
| QrScanner.HandleOutcome | static/js/qr_scanner.js:186-216 | Every reply adds exactly one alert. Failures show the server's message and transport errors the generic message. A success with the list prepends the student. A success without a `student` object fails inside `.then` and ends in the generic error. |
| QrScanner.ListGrowsOnlyOnSuccess | static/js/qr_scanner.js:186-216 | Over any series of replies, the list grows by one entry per successful reply that names a student. Earlier entries stay below, and there is one alert per reply. |
| JsText.Trim | static/js/main.js:177 | The result has no white space at either end and is no longer than the input. |
| JsText.TrimSplit | static/js/main.js:177 | What `trim()` removes from a cell's text is white space, from the two ends only: the text is white space, then the trimmed text, then white space. |
| JsText.TrimUnique | static/js/main.js:177 | Conversely, any text between two runs of white space that has no white space at its own ends is the trim of the whole. |
| CsvExport.EscapeKeeps | static/js/main.js:177 | Doubling quotes changes nothing in a quote-free cell and adds no new character. |
| CsvExport.Quote | static/js/main.js:177-181 | A cell containing a comma, newline or quote is wrapped in quotes, with its quotes doubled. Any other cell is unchanged. |
| CsvExport.CsvCell | static/js/main.js:177-181 | A field never begins or ends with white space. A field that needs no quotes is the trimmed text, and any other is wrapped in quotes. |
| CsvExport.Visible | static/js/main.js:168-170 | Hidden rows are skipped, and exactly the non-hidden rows remain. |
| CsvExport.VisibleConcat | static/js/main.js:168-170 | Selection works row by row and keeps the table's order and repeated rows: the visible rows of two runs are those of each, side by side. |
| CsvExport.VisibleSingle | static/js/main.js:168-170 | A single row is exported iff it is not hidden. |
| CsvExport.CsvFileName | static/js/main.js:196-198 | The name always ends in `.csv`, and the suffix is added only when missing. |
| CsvExport.FileNameIdempotent | static/js/main.js:196-198 | Normalising the name twice equals normalising it once. |
| CsvExport.UnescapeEscape | static/js/main.js:177 | Halving doubled quotes undoes the escaping. |
| CsvExport.CellRoundTrip | static/js/main.js:177-181 | Decoding an exported cell gives back the trimmed text. |
| CsvExport.QuotedRoundTrip | static/js/main.js:177-180 | A CSV reader reads a quoted, escaped field back to its text. |
| CsvExport.FieldRoundTrip | static/js/main.js:177-182 | Any trimmed cell, quoted or not, reads back to itself. |
| CsvExport.RecordRoundTrip | static/js/main.js:172-185 | A row joined with commas reads back to its cells. |
| CsvExport.LinesRoundTrip | static/js/main.js:185-189 | Lines joined with LF read back to the rows of trimmed cells. |
| CsvExport.CsvContent | static/js/main.js:163-189 | A table whose rows are all hidden exports an empty file. |
| CsvExport.ExportRoundTrip | static/js/main.js:163-189 | A CSV reader reads the exported file back to the trimmed cells of exactly the visible rows, in order. |
| PageScripts.Filter | static/js/main.js:98-104 | A row is shown iff its lower-cased text contains the lower-cased query. No row is added or removed. |
| PageScripts.EmptySearchShowsAll | static/js/main.js:103 | The empty query matches every row. |
| PageScripts.SearchIgnoresCase | static/js/main.js:98-102 | Matching ignores (ASCII) case. |
| PageScripts.Keyup | static/js/main.js:97-128 | A keystroke adds or removes at most one row. A row it adds comes last and is the "no results" row, after all rows in their filtered state, and only a table with a header row gets one: without `thead tr` the handler throws at main.js:113 before adding it. |
| PageScripts.KeyupNoResults | static/js/main.js:97-128 | After a keystroke, and with at most one "no results" row before it, that row exists iff no `tbody` row is shown, the "no results" row itself included, and either the table has a header row or the row was already there. There is never more than one, and the data rows are exactly the filtered ones, in order. |
| PageScripts.SetDisplay | static/js/main.js:103 | Hiding writes `display: none`. Showing leaves a row that was never hidden without a style attribute, and leaves an empty attribute on any other row. |
| PageScripts.FilterDom | static/js/main.js:98-104 | The first loop on the DOM rows sets every row's display from its match, and keeps their order and texts. |
| PageScripts.UpdateAsWritten | static/js/main.js:106-128 | As written, the "no results" row is added when the `tr[style=""]` selector finds nothing, none exists and the table has a header row; without a header row the handler throws and the filtered rows stay as they are. The row is removed when the selector finds a row. |
| PageScripts.UnstyledMatchAddsNote | static/js/main.js:103-110 | On a freshly rendered table, a query that matches the only row still adds the "no results" row beside it. |
| PageScripts.KeyupAgreesWhenStyled | static/js/main.js:97-128 | Once every row carries a style attribute, the handler as written does what `Keyup` describes, with or without a header row. |
| PageScripts.Pad2Digits | static/js/main.js:64-65 | A month or day below 100 is written as two digits that read back as the number. |
| PageScripts.FormatDateShape | static/js/main.js:62-66 | A four-digit year gives a 10-character `YYYY-MM-DD`. Its parts read back as the year, the month (index plus one) and the day. |
| PageScripts.DefaultDate | static/js/main.js:61-67 | Only an empty input marked `data-default-today` gets today's date. Any other input keeps its value. |
| PageScripts.DefaultDateStable | static/js/main.js:61-67 | Running the default a second time, on any later day, changes nothing. |
| PageScripts.Wrap | static/js/main.js:77-84 | A table ends inside a `table-responsive` parent. A table already wrapped is left alone. |
| PageScripts.WrapIdempotent | static/js/main.js:77-84 | Wrapping twice equals wrapping once. |
| QrGenerator.Merge | static/js/qr_generator.js:9-16 | Each of the six options (width, height, colorDark, colorLight, correctLevel, mode) takes the caller's value when given and keeps its default otherwise. |
| QrGenerator.MergeLaws | static/js/qr_generator.js:9-16 | Merging nothing keeps the defaults, and merging the same options twice equals merging them once. Two merges in a row equal one merge of the combined options, where the later keys win. |
| QrGenerator.NewGenerator | static/js/qr_generator.js:7-19 | Without options a new generator uses the defaults: 256 by 256, black on white, level H, flat. The mode is the given one, or `'2d'` when none is given. |
| QrGenerator.Generate | static/js/qr_generator.js:21-39 | Without a container nothing happens. A non-empty mode argument is stored. The code is embossed iff the stored mode is `'3d'`, and otherwise flat. |
| QrGenerator.ModePersists | static/js/qr_generator.js:27-31 | A mode given once also governs later calls made without a mode. |
| QrGenerator.Emboss | static/js/qr_generator.js:105-119 | The pixel loop matches a per-byte closed form. Alpha bytes are kept. A pixel followed by a dark pixel ends at 70. Otherwise a dark pixel ends at 0 and other pixels are kept. The write before the first pixel is ignored. |
| QrGenerator.EmbossLeavesOthers | static/js/qr_generator.js:105-119 | Alpha bytes, and pixels that are neither dark nor followed by a dark pixel, keep their bytes. |
| QrGenerator.ToggleMode | static/js/qr_generator.js:170-171 | `'2d'` switches to `'3d'`, and anything else switches to `'2d'`. |
| QrGenerator.ToggleRoundTrip | static/js/qr_generator.js:169-178 | Two clicks return to `'2d'` or `'3d'`. The regenerated code is embossed iff the button was on `'2d'`. |
| QrGenerator.ToggleText | static/js/qr_generator.js:174 | The text is "Switch to " and " QR" around the mode being left, upper-cased: "Switch to 2D QR" when leaving `'2d'`, "Switch to 3D QR" when leaving `'3d'`. |
| QrGenerator.ModeClick | static/js/qr_generator.js:169-178 | A button without `data-mode` throws at `toUpperCase` and the click changes nothing. Otherwise the button takes the toggled mode and the text naming the mode left, and with a container the code is drawn again, embossed iff the button was on `'2d'`. |
| QrGenerator.ModeClickLaws | static/js/qr_generator.js:169-178 | From `'2d'` or `'3d'`, the text after a click names the mode the next click selects. A second click restores the button's mode and the generator, which then draws as before the first click. |
| QrGenerator.ModeClickFrom2d | static/js/qr_generator.js:169-178 | The first click on a `'2d'` button shows "Switch to 2D QR", stores `'3d'` and draws the embossed code. |
| QrGenerator.LastSegment | static/js/qr_generator.js:143 | The result has no dash and is a suffix of the id. It is either the whole id or preceded by a dash. |
| QrGenerator.StudentIdOfContainer | static/js/qr_generator.js:143 | `qr-container-<id>` gives `<id>` when the id has no dash. |
| QrGenerator.DownloadName | static/js/qr_generator.js:124-133 | A download happens iff there is a canvas. Its name is the given name plus `.png`, added even when already present. |
| QrGenerator.DownloadNameLaws | static/js/qr_generator.js:124-133 | The given name can be read back from the download name. Distinct names give distinct downloads, and a name already ending in `.png` still gets a second suffix. |
| Charts.GenerateColors | static/js/charts.js:278-295 | The result has `max(count, 0)` colours, and colour `i` is base colour `i mod 7`. |
| Charts.ColorsPrefixAndPeriod | static/js/charts.js:289-292 | Fewer colours are a prefix of more, and the list repeats every 7 entries. |
| Charts.DailyChart | static/js/charts.js:26-45 | Without a canvas nothing happens. Without dates the canvas is hidden, a note is appended and no chart is registered. Otherwise a line chart is registered under `dailyAttendance`. |
| Charts.ActivityChart | static/js/charts.js:108-124 | Without activities the canvas is hidden and no chart is registered. Otherwise exactly one chart changes: `activityRate` becomes a bar chart over the activity names with one base colour per activity. |
| Charts.ReportChart | static/js/charts.js:182-197 | Without the canvas nothing happens. Without labels the canvas is hidden. Otherwise a chart is registered under the canvas id, and no canvas changes. |
| Charts.ReportKind | static/js/charts.js:188 | The report chart is a line chart iff it has more than 10 labels, otherwise a bar chart. |
| Charts.ReportChartShape | static/js/charts.js:182-197 | A drawn report chart keeps its labels, and only the bar variant has per-label colours, one per label. No other chart is touched. |
| Charts.EmptyDataRegistersNothing | static/js/charts.js:35-42 | With empty data none of the three data charts registers a chart, and the report canvas is hidden. |
| Charts.ParseInt | static/js/charts.js:309-310 | `parseInt` gives a number only when the text holds a digit. |
| Charts.ParseIntRoundTrip | static/js/charts.js:309-310 | `parseInt` reads the decimal spelling of any integer back to that integer. |
| Charts.PieCounts | static/js/charts.js:309-313 | The pie's first slice is the attended count. The second is total minus attended, or NaN when either count is NaN. |
| Charts.PieFromRenderedCounts | static/js/charts.js:309-313 | Rendered counts give exactly attended and total minus attended. Missing attributes give 0 and 0. |
| Charts.PieChart | static/js/charts.js:230-234 | With the pie canvas, a pie chart is registered under the canvas id, and its slices are the pie counts. |
| Json.OptionalInt | models.py:40 | The JSON id is `null` iff the key is None. |
| Models.FullName | models.py:34-35 | The full name is the first name, a space and the last name, and both names can be read back from it. |
| Models.GenerateQrData | models.py:37-45 | The payload has exactly the keys id, student_id, name and timestamp. Its id is null iff the key is None, and its name is the full name. |
| Models.SaveQrData | models.py:47-49 | Only `qr_data` changes, and it becomes the generated payload. |
| Models.QrDataNamesStudent | models.py:37-49 | A saved payload names exactly the key it was generated with, and nobody before the first commit. |
| Models.IsOngoing | models.py:70-73 | An activity is ongoing iff it is active and the instant lies in its closed window. An ongoing activity has a non-empty window, and one whose end precedes its start is never ongoing. |
| Models.OngoingWindow | models.py:70-73 | An activity is ongoing only if it is active and inside its closed window. An active activity is ongoing at every instant of its window, both ends included. |
| Models.AttendanceRate | models.py:75-82 | The rate is 0 without students. It is never negative, and at most 100 when the activity has no more rows than there are students. |
| Models.RecordAttendance | models.py:97-118 | The call returns False and changes nothing iff the pair is already recorded. Otherwise it appends exactly one row with the given student, activity and scanner, and returns True. |
| Models.RecordKeepsPairsUnique | models.py:98-118 | Recording keeps at most one row per pair, and a repeated call returns False and changes nothing. |
| Forms.RegistrationValid | forms.py:12-28 | A taken username or email is refused. So are a username under 4 characters, a password under 6 and a confirmation that differs. |
| Forms.Register | forms.py:12-28 | A valid registration adds exactly the new user, and anything else changes nothing. Unique usernames and emails stay unique. |
| Forms.RegistrationBounds | forms.py:13-28 | An accepted registration has a username of 4-64 characters and a password of at least 6. The confirmation equals the password, and the username and email are unused. |
| Forms.StudentIdError | forms.py:43-47 | The id error names an id some student holds. When adding, it is raised iff the id is taken. |
| Forms.EmailError | forms.py:49-52 | The email error names an email some student holds. When adding, it is raised iff the email is taken. |
| Forms.StudentValid | forms.py:30-52 | An accepted student form has a parsed date of birth and a student id of 4-20 characters. The names have 1-64 characters, the email 1-120 and the phone at most 20. The email passes the syntax check and both uniqueness checks pass. |
| Forms.StudentIdRule | forms.py:43-47 | An unchanged student id never errors. A changed one errors iff some student holds it. |
| Forms.EmailRuleOnEdit | forms.py:49-52 | When editing a student, its own email is accepted and another student's email is rejected. |
| Forms.ValidateEndTimeAsWritten | forms.py:63-65 | An end at or before the start is rejected and a later end accepted. A start that did not parse raises a TypeError. |
| Forms.ValidateEndTime | forms.py:63-65 | The corrected rule never raises. It rejects iff a start exists and the end is at or before it. |
| Forms.EndTimeCrash | forms.py:63-65 | The as-written rule crashes on a missing start, the corrected one does not, and they agree whenever a start exists. |
| Forms.ActivityValid | forms.py:55-65 | An accepted activity form has both times and ends strictly after it starts. |
| Forms.ScanFormValid | forms.py:74-76 | The scan form needs both hidden fields: an empty field, or one of spaces only, is refused. |
| Utils.AdminRequired | utils.py:6-14 | The wrapped function runs iff the user is logged in and an admin, with the same arguments and an unchanged result. Everyone else is redirected to the dashboard with the danger flash. |
| Utils.GuardIgnoresRoute | utils.py:9-13 | The guard admits or refuses a user independently of the route it protects. |
| Utils.QrCodeData | utils.py:16-24 | The payload has exactly the keys id, student_id and name. Its name is first name, space, last name. |
| Utils.QrCodeDataAgrees | utils.py:19-24 | The helper's payload is the model's payload without the timestamp, and its name equals the full name. |
| Routes.ParseKey | routes.py:323-327 | A key parses iff the text is a non-empty run of decimal digits, and the key is never negative. |
| Routes.ParseKeyRoundTrip | routes.py:323-327 | A written primary key reads back to itself. |
| Routes.ScanAttendance | routes.py:316-374 | Each rung of the ladder gives its answer and leaves the store unchanged. An invalid form gives "Invalid form submission", and an unknown activity gives a 404. Then the data gives "Invalid QR code data" when it is not JSON. It gives "Invalid QR code format" when it is not an object with `id`, and "Student ID missing in QR code" for a null `id`. A database error gives "Error: " and its text. An unknown student gives "Student not found", and a recorded pair gives "Attendance already recorded for" and the name. Only a success changes the store: it names a stored student and appends exactly the recorded row. |
| Routes.ScanKeepsInvariants | routes.py:346-350 | A scan keeps at most one row per pair and keeps every row pointing at stored records. |
| Routes.ScanTwice | routes.py:352-366 | A second scan of the same code answers "Attendance already recorded for" the student and changes nothing. |
| Routes.ScanSucceeds | routes.py:326-365 | Conversely, a valid form, a stored activity, a JSON object whose `id` names a stored student, no database error and no earlier row for the pair give a success reply naming the student, and the store gains exactly that row. |
| Routes.ScanIgnoresOngoing | routes.py:326-327 | A scan for an existing activity that is not ongoing still records attendance. |
| Routes.TakeAttendance | routes.py:300-314 | The scanning page opens iff the activity exists and is ongoing. A missing activity gives a 404, and any other activity gives a redirect. |
| Routes.TakeAttendanceWindow | routes.py:304-314 | An active activity opens the page at every instant of its window, both ends included. Outside the window, or when inactive, it redirects to the activity list with the warning. |
| Routes.AddStudentAsWritten | routes.py:119-139 | A valid student is stored with a QR payload whose id is null. |
| Routes.AddStudent | routes.py:119-141 | A valid student is stored under the new key with the form's fields, and its payload names that key. The answer redirects to the student list with "Student <full name> has been added!". An invalid form renders the add form again and changes nothing. Unique student ids and emails stay unique. |
| Routes.EditStudent | routes.py:143-163 | A valid edit replaces the student's fields and regenerates a payload naming its key. Other students are untouched, and unique student ids and emails stay unique. |
| Routes.FilterKeepsUnique | routes.py:206 | Removing rows keeps at most one row per pair. |
| Routes.FilterConcat | routes.py:414-426 | Filtering works row by row and keeps the order: filtering two runs of rows is filtering each, side by side. |
| Routes.FilterSingle | routes.py:414-426 | A single row is kept iff it passes the filter. |
| Routes.DeleteStudent | routes.py:197-216 | An anonymous user is sent to log in with the login manager's info flash, and a non-admin to the dashboard with the danger flash. A missing student is a 404. Only an admin deleting a stored student without a failure changes the store: all of the student's rows are removed, then the student. A failure rolls back with the error flash. |
| Routes.DeleteActivity | routes.py:278-297 | The same as DeleteStudent, for an activity and its rows: the login and admin redirects, the 404, the cascade and the rollback. |
| Routes.DeletesKeepInvariants | routes.py:204-209 | After a delete, no row of the deleted record survives and every other row does. Rows still point at stored records, one per pair. |
| Routes.Report | routes.py:401-429 | The corrected report lists exactly the rows that pass the joins and each non-empty filter of a valid form. |
| Routes.ReportAsWritten | routes.py:408-418 | As written, a valid search with a student id fails, and any other search lists the rows of the corrected report. |
| Routes.StudentSearchFails | routes.py:417-418 | A search with both dates filled in and a stored student's id fails as written, although the corrected report lists that student's row. |
| Routes.ReportByStudent | routes.py:417-418 | When the rows point at stored records, the corrected search by student id lists exactly that student's rows. |
| Routes.DateWindowIsInclusive | routes.py:420-426 | `timestamp >= from` and `timestamp < to + 1 day` hold iff the row's day lies between `from` and `to`, both included. |
| Routes.EmptySearchListsAll | routes.py:407-415 | An unsubmitted, invalid or empty search lists every row. |
| Pipeline.ToOutcome | static/js/qr_scanner.js:186-187 | A JSON answer is delivered with its flag, message and student. The 404 page fails `response.json()` like a network error. |
| Pipeline.AsWrittenCodeIsRefused | routes.py:133-137 | A code carrying the payload stored by the as-written add is answered "Student ID missing in QR code" and records nothing. |
| Pipeline.AddedStudentIsRecorded | routes.py:119-139 | With the corrected add, scanning the new student's payload records the attendance, and the page's list gains the student's full name and id at the top. |

## Left out

- Camera access (`getUserMedia`), `video.play`, the jsQR decoder and canvas drawing (`drawImage`, `getImageData`, `drawQRBoundary`) become inputs: a granted or denied camera, and a frame that is not ready or holds an optional payload.
- `fetch`, the beep `Audio` and the `showAlert` DOM insertion and timers become an outcome datatype and a list of alerts. The two global `showAlert` definitions collide at run time; that collision is not modelled.
- `setupConfirmDialogs` and the Bootstrap tooltip/popover set-up are browser dialogs and library calls with no state of their own.
- The QR encoder (`QRCode.js`), the 100 ms wait in `generate3D` and the canvas composition steps before the emboss loop are library and timing details. `Emboss` models only the byte loop.
- Chart.js configuration objects, tooltip callbacks and the data arrays handed to Chart.js are library styling. A chart is recorded by its type, labels and background colours.
- `Charts.ParseInt`: the `0x` hexadecimal prefix that `parseInt` accepts without a radix is not modelled, and neither is the loss of precision beyond 2^53.
- `Charts`: the `DOMContentLoaded` wiring that chooses which charts to draw is direct composition of the modelled functions and is not written out.
- `PageScripts.KeyupNoResults` and `PageScripts.Keyup` describe the intended handler, which counts the rows whose display is not `none`. Both keep the source's throw on a table without `thead tr`, as a `hasHeader` input; a table without `tbody`, whose rows the handler would never find, is not modelled. The `tr[style=""]` selector of the source is modelled separately (`UpdateAsWritten`) with three attribute states, absent, empty and `display: none`; other inline styles a template might set are not modelled. Case folding is ASCII only.
- `Models.RecordKeepsPairsUnique`: uniqueness holds only when requests are handled one at a time. The source checks for an existing row and then inserts, with no unique constraint on the pair, so two concurrent scans of the same code can both insert.
- `QrScanner.Submit` assumes that the page has the `#activity_id` element and the `csrf_token` input. When either is missing the callback throws, the next frame is never requested and the camera stays held; that path is not modelled.
- `QrScanner.RunAsWritten` records the stream a second grant drops, but not the second animation-frame loop that the second start also begins. Frames are events of a single loop.
- `Routes.DeleteStudent` and `Routes.DeleteActivity` send an anonymous user to the `login` view with the login manager's flash; the `next` query parameter that Flask-Login adds to that redirect is not modelled.
- `Routes.EmptySearchListsAll` takes the form's validity as given. On the real form an empty date field does not parse, so a valid search always carries both dates, and the case of a valid search with every field empty does not occur; the unsubmitted or invalid form is the case that lists every row.
- `Routes.Report` and `Routes.ReportAsWritten` take the failure of the repeated `Student` join as the database's answer. It is not derived from SQLAlchemy's query building.
- `CsvExport`: the Blob, the download link and the `msSaveBlob` branch are browser I/O.
- `Models.AttendanceRate` and the view's `attendance_rate` are floating point in the source. The model uses exact rationals, so rounding is not modelled.
- Databases, sessions and queries (SQLAlchemy): tables are maps, and a failing commit is a `fault` input. The dashboard's group-by query, the report's ordering by time and the activities drop-down are not modelled. Primary keys handed in as text read as decimal digits only. Other values (booleans, floats, padded text) are treated as naming no record, although a database driver may coerce them.
- `json.dumps`/`json.loads` are not modelled as text: a stored payload is a JSON value, and parsing is a function parameter. `datetime.utcnow()` becomes a time parameter, in seconds and as ISO text.
- WTForms internals are not modelled: the `Email()` check is a parameter, and CSRF protection is left out. The report form's validity is an input, so the effect of an empty date field on it is not modelled. The student's date of birth has no `Optional()` validator, so an empty or unparsable value makes the form invalid; `Forms.StudentValid` requires it to parse, but its value is not stored in the model.
- Password hashing, login and logout, `add_activity`/`edit_activity`, the QR-data endpoint and the list and view pages are not modelled. They only store or display values already modelled here.
- `app.py` (configuration, table creation, admin seeding) and `api/index.py` (the serverless adapter) are start-up plumbing and are not part of this model.
- Rows and ids carry no length limits of their own beyond the form validators. The database's string column widths are not modelled.

## Findings

| source | as written | input that shows it | evidently intended | confidence | as-written member | corrected member |
|---|---|---|---|---|---|---|
| routes.py:133-137 | `add_student` calls `save_qr_data()` before the first commit, so `self.id` is None and the stored payload's `id` is `null` | Add any valid student, then scan a code printed from its stored `qr_data`: the answer is "Student ID missing in QR code" | The stored payload names the new student's key, as after `edit_student` and the QR-data endpoint | high for the stored payload; the page's QR view refreshes it through the endpoint; not executed | Routes.AddStudentAsWritten, Pipeline.AsWrittenCodeIsRefused | Routes.AddStudent, Pipeline.AddedStudentIsRecorded |
| static/js/qr_scanner.js:224-241 | The click handler asks for the camera whenever `scanning` is false, and `scanning` stays false until `getUserMedia` resolves | Click twice before the permission prompt is answered, then grant both: the second grant replaces `video.srcObject`, and the first stream's tracks are never stopped | One camera request at a time: a click while a request is pending is ignored | medium; it needs a second click while the prompt or camera start-up is pending; not executed | QrScanner.RunAsWritten, QrScanner.DoubleClickAbandons | QrScanner.Run, QrScanner.DoubleClickGuarded |
| static/js/main.js:107 | Shown rows are counted with the `tbody tr[style=""]` selector | On a freshly rendered table, type a query that matches a row: the row never had a style attribute, so the selector finds nothing and "No matching records found" is added beside the matching row | Count the rows whose display is not `none` | medium; it relies on browsers not creating a style attribute when an absent declaration is cleared; not executed | PageScripts.UpdateAsWritten, PageScripts.UnstyledMatchAddsNote | PageScripts.Keyup, PageScripts.KeyupNoResults |
| routes.py:418 | The student filter joins `Student` again, although the base query at line 409 already joined it | A report search with both dates filled in, as a valid form needs, and a student id: the statement names the `student` table twice and the database refuses it, so the request fails | Filter on the `Student` already joined | medium; it depends on SQLAlchemy emitting a second unaliased join; not executed | Routes.ReportAsWritten, Routes.StudentSearchFails | Routes.Report, Routes.ReportByStudent |
| forms.py:63-65 | `validate_end_time` compares `end_time.data` with `start_time.data` without checking for None | A form whose start time does not parse and whose end time does: comparing a datetime with None raises a TypeError and the request fails | The form is rejected through the start field's own required check | medium; it relies on WTForms running the end-time validator when the start field failed; not executed | Forms.ValidateEndTimeAsWritten, Forms.EndTimeCrash | Forms.ValidateEndTime, Forms.ActivityValid |
