# Clickstream pipeline of the learning site, in Dafny

The learning site records what its visitors do and reports on it. This
project models that clickstream pipeline as pure functions over an
in-memory event store.

- **Browser side** (`static/js/clickstream.js`). The rules turn page activity
  into tracking calls:
  - the link, button and form classifiers of `trackClicks`;
  - the mouse-movement throttle;
  - the key-combination text;
  - the once-a-minute time-on-page check;
  - the failed-event queue.
- **Server side** (`app.py`):
  - `api_track_event` and `track_event` turn a request into one stored
    `ClickstreamEvent` row, taking the client address from `get_client_ip`;
  - `submit_quiz` scores a quiz and records one event per question plus one
    completion event;
  - a single noise classifier separates the four telemetry event types from
    meaningful events.
- **Reports**:
  - the admin dashboard's counts, recent list and click analytics;
  - the activity report's readable columns and one-sentence descriptions;
  - the spreadsheet export's seven cells and column widths;
  - from the command-line viewer (`view_data.py`), the event summary, the
    recent-events listing with its limit prompt, and the quoted CSV export.

The store is a `seq<Event>`. Timestamps are `nat` microseconds. The stored
`additional_data` text is `Absent | Unparseable(raw) | Parsed(Json)`, and
decoded JSON objects keep their keys in payload order. Where the source
raises an error, the model returns a `Result` failure, except for the
failures listed under "Left out".

The modules follow the program's structure:

| file | module | what it holds |
|---|---|---|
| wrappers.dfy | Wrappers | `Option`, `Result` |
| seqs.dfy | Seqs | filter, count, take, stable descending sort, group-count (`GROUP BY`) |
| text.dfy | Text | substring search, split/join, strip/trim, ASCII case mapping, decimal text |
| json.dfy | JsonValues | decoded JSON values, `dict.get`, truthiness, Python `str` |
| events.dfy | Events | the event row, the user join, the noise classifier, what a column stores for a bound value |
| timestamps.dfy | Timestamps | the calendar, stored and millisecond timestamp text |
| ingestion.dfy | Ingestion | `api_track_event`, `track_event`, `get_client_ip` |
| quiz.dfy | Quiz | `submit_quiz` |
| dashboard.dfy | Dashboard | `admin_dashboard` |
| narrative.dfy | Narrative | `admin_user_activity` |
| excel.dfy | Excel | `export_excel` |
| viewer.dfy | Viewer | `view_data.py` |
| client.dfy | Client | `static/js/clickstream.js` |
| pipeline.dfy | Pipeline | properties that cross modules |

Some behaviour belongs to libraries and is passed in as a function
parameter:
- Python's text for a float (`floatStr`);
- the JSON text a payload was stored as (`dumps`);
- SQLite's text for a float (`realText`).

The click location is passed in as `loc`. The clock is passed in as a
value, for example `now` and `elapsedMs`.

## Model

| member | source | states |
|---|---|---|
| Events.MeaningfulIff | app.py:317 | an event is meaningful exactly when its type is none of `mouse_movement`, `visibility_change`, `time_on_page`, `scroll`; the dashboard, the activity report and the spreadsheet export all use this one classifier |
| Events.NewestMeaningful | app.py:323-325 | the listing the reports start from holds every meaningful stored event and nothing else, as a permutation of the filtered store, with timestamps non-increasing |
| Events.AccountOf | app.py:356-358 | the outer join attaches a user exactly when the event has a user id that names an existing user, and the attached row is that user's |
| Events.OrDefault | view_data.py:260-266 | Python `x or default` on a nullable text column: the value when it is non-empty, otherwise the default |
| Events.BoundText | app.py:72-88 | what a text column holds for a bound value: NULL exactly for a missing key or a JSON null, a string as it is, a boolean as `1` or `0` |
| Events.BoundIntReadsBack | app.py:73 | an integer stored in a text column reads back as the same integer: its digits, after a minus sign when negative |
| Events.Bindable | app.py:205-223 | the values the SQLite driver binds as a parameter: no list or dict, and an integer only within 64 bits |
| Events.BindableBounds | app.py:205-223 | the driver binds exactly the signed 64-bit integers and any text, float, boolean or null, and no list or dict |
| Events.FloatOf | app.py:83 | what the `Float` column makes of a value: an integer inside double range as itself, a float as itself, a boolean as 1 or 0, text by the decimal literal it holds once stripped, which must contain a digit; nothing for a list, a dict or an integer out of range |
| Events.TextColumn | view_data.py:260-272 | a text column as a reader sees it: NULL gives the empty text, a string is kept, and a bound number gives the text SQLite stored for it |
| Dashboard.MeaningfulCount | app.py:315-318 | the meaningful count is at most the total count, and it plus the number of noise events equals the total |
| Dashboard.RecentEvents | app.py:323-325 | the recent list is a prefix of the newest-first meaningful listing, of length min(20, meaningful count), so it holds only meaningful stored events, each once, newest first |
| Dashboard.RecentIsNewest | app.py:323-325 | a meaningful event missing from the recent list means the list is full and the event is no newer than its last entry |
| Dashboard.ClickTypes | app.py:328-333 | the element types of the click events number as many as the click events |
| Dashboard.ClickTypesCount | app.py:328-336 | each element type occurs among the click types as often as there are clicks on that type |
| Dashboard.ClickGroups | app.py:328-337 | the groups have distinct keys and are exactly the element types clicked, with a missing type as its own group; each count is the number of clicks of that type; counts are non-increasing and add up to the number of clicks |
| Dashboard.ClickAnalytics | app.py:328-337 | every row has event type `click`, and rows are ordered by non-increasing count |
| Dashboard.ClickRowFor | app.py:328-337 | every element type that was clicked has exactly one row, and its count is the number of clicks on elements of that type |
| Dashboard.NoClicksNoRows | app.py:328-337 | there are no rows exactly when there are no click events |
| Timestamps.DigitsDropThree | app.py:385 | cutting the last three of six microsecond digits leaves the milliseconds, truncated |
| Timestamps.MillisText | app.py:385 | the Time cell is the stored timestamp text less its last three characters: the seconds and the whole milliseconds, never rounded up |
| Timestamps.StoredText | app.py:76 | the stored text is the seconds text, a dot, and six digits that read back as the microseconds within the second |
| Timestamps.DigitsValue | app.py:76 | a zero-padded field of w digits reads back as the number modulo 10^w |
| Timestamps.CivilFromDays | app.py:76 | the date of a day count is a valid proleptic Gregorian date from 1970 on (month 1 to 12, day within the month's length, leap years included) that counts back to exactly that day count |
| Timestamps.CivilUnique | app.py:76 | two valid dates that count the same number of days are the same date |
| Timestamps.YearOf | app.py:76 | the year of a day count, and the day within it, count back to that day count |
| Timestamps.MonthOf | app.py:76 | the month of a day within its year, and the day of the month, count back to that day |
| Timestamps.SecondsText | app.py:76 | the seconds text ends in ` HH:MM:SS` whose two-digit fields recompose the second of the day of the timestamp |
| Timestamps.ClockDigits | app.py:76 | two-digit hours, minutes and seconds read back as the second of the day they came from |
| Ingestion.ClientIp | app.py:567-574 | the client address is the first `X-Forwarded-For` entry, stripped, which holds no comma; failing that, `X-Real-IP` as sent; failing that, the peer address |
| Ingestion.ClientIpFirstHop | app.py:569-570 | for a forwarded-for header `hop, hop2, …` the address is the first hop, stripped |
| Ingestion.ReadBody | app.py:187-193 | a body that is not a JSON object fails, since it has no `.get`; otherwise each field is the body's value for its key, absent when the key is missing |
| Ingestion.ColumnValue | app.py:196-203 | a family column holds the payload's value for its key; a missing key and a JSON null both become NULL |
| Ingestion.TimeColumn | app.py:83 | the `video_time` column is NULL for no value, and otherwise holds the float Python's `float` made of the value |
| Ingestion.PayloadOf | app.py:193 | the payload is the body's `additional_data` when the key is sent, whatever its value, and `{}` when it is missing |
| Ingestion.FirstUnbindable | app.py:205-223 | names the first family key whose value its column refuses (for `video_time` one Python's `float` cannot convert, for a text column one SQLite cannot bind), and returns none exactly when every column accepts its value |
| Ingestion.FirstUnbindableText | app.py:208-211 | names the first of the four text fields, in column order, whose value SQLite cannot bind, and returns none exactly when all of them bind |
| Ingestion.NewRow | app.py:205-220 | the inserted row stores the payload as a dict, every text family column equals the payload's value for its key, `video_time` holds the float of the payload's value, and each text field holds the text SQLite stores for the value sent |
| Ingestion.ApiTrackEvent | app.py:184-225 | a payload that is not a dict fails (a JSON null included); otherwise a `video_time` that Python's `float` cannot convert fails first, naming `video_time`, before any other column is bound; the request is stored exactly when `video_time` converts, the text fields and text family values bind, and `event_type` is present and not null; a list, a dict or an integer beyond 64 bits in a text column fails naming its column, and a missing event type fails on the non-null column. The stored row keeps the whole payload (`{}` when none was sent), copies the five text family keys into their columns and the float of `video_time` into its column and stores each text field as SQLite's text for it (a number as its digits, a boolean as `1`/`0`), takes the logged-in user or nobody, and falls back to session `anonymous`; the event type is not validated |
| Ingestion.ApiTrackBody | app.py:187-225 | the route fails when the body is not a JSON object, and otherwise stores the request its fields make |
| Ingestion.NumbersStoredAsText | app.py:189-191 | an element id sent as the number 5 is stored as `5`, and an element type sent as `true` as `1` |
| Ingestion.ListFieldRefused | app.py:189-223 | an element id sent as a list fails the request naming `element_id`, even when the event type is missing |
| Ingestion.TimeWordRefused | app.py:83 | a `video_time` text with no digit fails the request naming `video_time`, even when a text field holds a list |
| Ingestion.TimeStored | app.py:83 | a `video_time` that `float` converts is stored as that value |
| Ingestion.TextColumnRefused | app.py:81-88 | a text column whose payload value the driver cannot bind fails the request under that column's name |
| Ingestion.TimeTextStored | app.py:83 | decimal digits sent as text, with white space around them, are stored in `video_time` as the number they spell |
| Ingestion.WideIntegerColumns | app.py:79-88 | an integer of 2^63 or more but within double range is stored as a float in `video_time`, while in `video_id` it fails the request |
| Ingestion.TrackEvent | app.py:576-589 | a truthy explicit user id wins over the logged-in user; the payload is stored exactly when it is truthy; the page is the request URL; the family columns are never filled |
| Ingestion.EmptyPayloadPaths | app.py:585 | an empty payload is stored as present by the endpoint but as absent by the helper |
| Quiz.CorrectAmong | app.py:255-261 | the reference count of the questions whose answer, looked up under `str(i)`, equals the correct option; never more than the questions counted |
| Quiz.AllCorrectIff | app.py:258-261 | the count equals the number of questions exactly when every answer matches |
| Quiz.NoneCorrectIff | app.py:258-261 | the count is zero exactly when no answer matches |
| Quiz.ScoreAnswers | app.py:255-270 | the loop counts the matching answers and makes one `quiz_action` call per question, in question order, recording the answer or null |
| Quiz.QuestionCall | app.py:264-270 | a question attempt is tracked as a `quiz_action` of type `quiz_question` on `question_<id>`, with a dict payload and no explicit user |
| Quiz.QuestionPayload | app.py:265-270 | the payload names the lesson id exactly as the body sent it, the question, the answer as sent (null when missing) and the correct answer, in that order |
| Quiz.QuestionColumnsEmpty | app.py:264-270 | stored through `track_event`, a question attempt has NULL quiz columns and carries its ids only in its payload |
| Quiz.CompletionCall | app.py:285-286 | the completion is tracked as a `quiz_action` of type `quiz` on `quiz_<lesson>_complete`, where `<lesson>` is `str` of the lesson id as sent, with a dict payload |
| Quiz.CompletionPayload | app.py:285-286 | the completion payload holds the score as a float and the question count, and no answer |
| Quiz.ReadQuizBody | app.py:248-250 | a body that is not a JSON object fails (the `data.get` call raises); otherwise the lesson id is the `lesson_id` value, or null when the key is missing, and the answers are the `answers` value when present |
| Quiz.SubmitQuizBody | app.py:246-288 | from the decoded body: exactly a non-object body fails with the body error; for an object, the lesson id read from it fails with 404 exactly when the store does not resolve it, and the submission succeeds exactly when the lesson resolves, has questions and the answers are a dict; then the count is the reference count, the attempt holds the lesson id and answers as sent, and total+1 calls are tracked, one per question in order and the completion last |
| Quiz.CompletionIds | app.py:285 | the completion element id is built with `str` of the lesson id as sent: `3` and `"3"` both give `quiz_3_complete` |
| Quiz.CompletionIdSpelled | app.py:285 | a lesson id `true` gives `quiz_True_complete`, and a float gives `quiz_` followed by Python's float text |
| Quiz.TextLessonEchoed | app.py:252-270 | a lesson id sent as text is echoed as text in the question payload's `quiz_id` |
| Quiz.Score | app.py:272 | score × total = 100 × correct, and the score is between 0 and 100 |
| Quiz.SubmitQuiz | app.py:246-288 | a missing lesson fails with 404; no questions fails before the attempt is saved (division by zero); answers that are not a dict fail. Otherwise exactly total+1 calls are tracked, one per question and then the completion call with score and total, and the attempt is saved with the score and the answers as sent |
| Narrative.EventContext | app.py:461-474 | the page column follows first-match precedence: `/course/` (the segment after the last `/course/`), `/lesson/` (the text after the last `/lesson/`), `/dashboard`, `/admin/`, then `/` or `/index`; otherwise the URL as is, and `N/A` when it is missing |
| Narrative.CourseContext | app.py:463-465 | a course URL `…/course/<id>[/…]` shows `Course: <id>` |
| Narrative.CourseUrlParts | app.py:463-464 | a course URL contains `/course/`, and its id is the first `/`-piece after the last `/course/` |
| Narrative.LessonContext | app.py:466-468 | a lesson URL `…/lesson/<rest>` shows `Lesson: <rest>` |
| Narrative.CourseExample | app.py:463-465 | `/course/7` shows `Course: 7` |
| Narrative.AdminDashboardExample | app.py:469-472 | `/admin/dashboard` shows `Dashboard`, because the dashboard rule comes before the admin rule |
| Narrative.Lookup | app.py:478-487 | a table lookup finds a pair from the table, or reports that the key is absent |
| Narrative.Component | app.py:477-487 | the component is the display name of one of the five known element types; any other non-empty type as it is; otherwise `System` |
| Narrative.ComponentNonEmpty | app.py:477 | the component column is never empty, and a missing type shows `System` |
| Narrative.EventName | app.py:490-502 | a known event type shows its table name; any other shows the type with underscores replaced by spaces, title-cased |
| Narrative.EventNameReadable | app.py:490 | an event name never holds an underscore, and a fallback name capitalises exactly the letters that start a word |
| Narrative.TableNameExample | app.py:499-500 | `quiz_action` shows `Quiz Action` |
| Narrative.FallbackNameExample | app.py:490 | `page_exit`, which is not in the table, shows `Page Exit` |
| Narrative.SpacedWords | app.py:490 | replacing the underscore between two words gives the words separated by a space |
| Narrative.TitledWords | app.py:490 | title-casing two lower-case words capitalises the first letter of each |
| Narrative.QuizClause | app.py:521-532 | a dict payload with `score` reports the score, one with `answer_selected` reports an answer, and one with neither adds nothing; a missing or undecodable payload reports a generic quiz action |
| Narrative.ControlNote | app.py:540-548 | the trailing note names the button text, which takes precedence over the link text, and only a decoded dict adds one |
| Narrative.ButtonNoted | app.py:543-544 | a dict payload whose `button_text` is a text names that button |
| Narrative.LinkNoted | app.py:545-546 | a dict payload without `button_text` whose `link_text` is a text names that link |
| Narrative.Opening | app.py:505-509 | the description opens with `The user '<name>'` or `The user (Anonymous)` |
| Narrative.Description | app.py:504-548 | every description starts with its opening |
| Narrative.PageViewDescribed | app.py:511-512 | a page view names the page by its event context |
| Narrative.ClickDescribed | app.py:513-516 | a click names the lower-cased component and the element id when there is one |
| Narrative.SessionDescribed | app.py:517-520 | log-in and log-out events are described as such |
| Narrative.QuizDescribed | app.py:521-532 | a quiz action is described by its quiz clause |
| Narrative.VideoDescribed | app.py:533-537 | a video action is described by the clause for its `video_action` column as stored |
| Narrative.VideoClause | app.py:534-537 | a non-empty column text gives ` performed video action: <text>`; an empty or NULL column gives ` interacted with video content` |
| Narrative.VideoActionZero | app.py:534-535 | a `video_action` sent as the number 0 is stored as the text `0`, which is not empty, so the sentence names action `0` |
| Narrative.OtherDescribed | app.py:504-548 | any other event type has no action clause: only who acted and the control note |
| Narrative.UnreadableQuizDescribed | app.py:521-532 | a quiz action with a missing or undecodable payload is still described as a generic quiz action, with no note |
| Narrative.RowOf | app.py:553-563 | a report row has origin `web`, the event's time, the user's name or `Anonymous`, the context, component and name columns, the event's description under that user, its address or `N/A`, and the user's e-mail or `N/A` |
| Narrative.Rows | app.py:459 | one row per event, in the same order |
| Narrative.UserActivity | app.py:450-563 | the report has one row per meaningful event and each row comes from a meaningful stored event; the rows are newest first and every origin is `web` |
| Narrative.UserActivityCovers | app.py:450-459 | every meaningful stored event has its row in the report |
| Excel.PairTexts | app.py:402 | each `key: value` item of a dict description, in payload order |
| Excel.Description | app.py:396-409 | a dict payload gives its `key: value` items joined by `, `; any other decoded payload gives its Python text; undecodable text is kept as it is; without a payload the cell is `Element: <id>`, or `N/A` |
| Excel.DescriptionMentionsEveryPair | app.py:402 | a dict description contains every `key: value` item of the payload |
| Excel.EmptyDictDescription | app.py:398-402 | a decoded empty dict is described by the empty text, not by `N/A` |
| Excel.Origin | app.py:412-415 | the origin is `User: <name> (<email>)` when a username is present, otherwise `Anonymous` |
| Excel.Row | app.py:383-418 | seven cells: millisecond time, page or `N/A`, raw element type or `N/A`, raw event type, description, origin, and address or `N/A` |
| Excel.Cells | app.py:383-418 | the seven cells of a row in column order |
| Excel.RowIsFull | app.py:383-418 | every event's row fills all seven columns |
| Excel.Sheet | app.py:356-418 | the sheet is the header row followed by one row per meaningful event, newest first |
| Excel.SheetWellFormed | app.py:376-418 | every row of the sheet has seven cells |
| Excel.SheetCoversMeaningful | app.py:356-360 | every meaningful stored event has its row in the sheet |
| Excel.SheetRowsFromStore | app.py:356-383 | every data row of the sheet is the row of a meaningful stored event |
| Excel.ExportExcel | app.py:356-418 | the exported rows are the header and then the seven cells of each meaningful event, newest first, every row seven cells wide |
| Excel.ExportExcelCovers | app.py:356-383 | every meaningful stored event has its cells among the exported rows |
| Excel.LongestCell | app.py:421-429 | the longest cell of a column: no cell is longer, and some cell reaches it |
| Excel.ColumnWidth | app.py:430 | a column's width is at most 50; it is at least min(cell length + 2, 50) for every cell, and equals 50 or some cell's length + 2 |
| Excel.ColumnWidths | app.py:420-431 | one width per column |
| Excel.HeadersFit | app.py:368 | every header title fits under the cap of 50 |
| Excel.WidthsFitHeaders | app.py:420-431 | each column is at least as wide as its title plus two |
| Viewer.NewestFirst | view_data.py:98-104 | the viewer lists every stored event, noise included, newest first |
| Viewer.TypeCounts | view_data.py:186-196 | one line per event type, counts non-increasing and adding up to the total |
| Viewer.TypeCountFor | view_data.py:186-196 | every stored event type has exactly one line, whose count is the number of events of that type |
| Viewer.UserTypeCounts | view_data.py:199-210 | at most an `Authenticated` line and an `Anonymous` line, each shown only when positive; together they partition the total |
| Viewer.UserTypeLines | view_data.py:199-210 | the `Anonymous` line is shown exactly when some event lacks a user id, and `Authenticated` exactly when some event has one |
| Viewer.ParseLimit | view_data.py:308-309 | an answer that is not all digits after stripping gives 20; a digit answer fails exactly when it has more digits than Python's `int` converts |
| Viewer.ParseLimitReadsNumber | view_data.py:308-309 | a number typed with any surrounding white space, and with no more digits than `int` converts, is read back as itself |
| Text.StripAround | view_data.py:308 | stripping white space around text that neither starts nor ends with white space leaves that text |
| Text.DecimalValue | app.py:83 | the value Python's `float` reads from text made of an optional sign, a mantissa and an optional exponent after `e` or `E`; text it reads holds a digit |
| Text.UnsignedDecimal | app.py:83 | an unsigned literal's value is never negative, and its text holds a digit |
| Text.Mantissa | app.py:83 | a mantissa is digits on one or both sides of at most one point, at least one digit in all |
| Text.DecimalOfNat | app.py:83 | decimal digits read as the number they spell |
| Text.DecimalOfNegative | app.py:83 | a leading minus negates an unsigned literal |
| Text.FractionMantissa | app.py:83 | for any digits `w` and `f` with a digit between them, the mantissa of `w.f` is the number `w·10^|f| + f` with `|f|` fraction digits: the digits of both parts read as one number |
| Text.DecimalFraction | app.py:83 | `2.50` reads as 2.5 |
| Text.DecimalNoWhole | app.py:83 | `.5` reads as 0.5 |
| Text.DecimalNoFraction | app.py:83 | `7.` reads as 7 |
| Text.DecimalNegativeExponent | app.py:83 | `25E-1` reads as 2.5 |
| Text.DecimalSignedLiteral | app.py:83 | `+3e2` reads as 300 |
| Text.DecimalRefused | app.py:83 | `.`, `1e`, `--1` and the empty text are refused |
| Viewer.RecentView | view_data.py:98-113 | the listing shows min(limit, store size) events, newest first, each with its username or `Anonymous` |
| Viewer.RecentViewNewest | view_data.py:98-105 | an unlisted event means the listing is full and the event is no newer than the last one listed |
| Viewer.ListRecent | view_data.py:307-310 | menu choice 4 fails when the limit cannot be read, fails when the limit does not fit the 64-bit `LIMIT ?` parameter, and otherwise lists that many of the newest events |
| Viewer.DisplayUser | view_data.py:265 | the user shown is the joined user's name when the event names an existing user with a non-empty name, and `Anonymous` when it names none; never empty (the recent listing's `User:` line, view_data.py:113, uses the same rule) |
| Viewer.NoNumberListsTwenty | view_data.py:308-310 | an answer that is not a number lists the twenty newest events |
| Viewer.HugeLimitOverflows | view_data.py:97-103 | typing 2^63 passes the digit test but overflows the `LIMIT ?` parameter |
| Viewer.VideoTimeText | view_data.py:269 | the stored float is written with Python's `str` only when it is non-zero; NULL and zero give an empty field |
| Viewer.VideoTimeDigits | view_data.py:269 | decimal digits sent as `video_time` text, with white space around them, are written as the float they spell, and `0` is not written at all |
| Viewer.PayloadText | view_data.py:273 | a missing payload gives the empty field, and undecodable text is written as it is |
| Viewer.CsvFields | view_data.py:259-274 | every data line has fourteen fields, the same count as the header names |
| Viewer.FieldList | view_data.py:259-274 | the event fields come first, followed by the video, quiz and payload fields, each at its own position |
| Viewer.CsvFieldsAlwaysPresent | view_data.py:260-266 | the time, event type and session fields are written as stored |
| Viewer.CsvFieldsMissingElement | view_data.py:262-265 | missing element and page values become empty fields, and a missing user becomes `Anonymous` |
| Viewer.CsvFieldsMissingFamily | view_data.py:267-273 | missing video, quiz and payload values become empty fields |
| Viewer.CsvLineShape | view_data.py:275 | a written line is one quote, the fields joined by `","`, a closing quote and a newline |
| Viewer.CsvLine | view_data.py:275 | a written line ends with a newline; with fields it starts and ends with a quote, and with none it is the bare newline |
| Viewer.QuotedJoin | view_data.py:275 | joining quoted fields with commas is the fields joined by `","` inside one pair of quotes |
| Viewer.NoQuoteNoSep | view_data.py:275 | text without a double quote cannot run into the field separator |
| Viewer.CsvLineRoundTrip | view_data.py:275 | when no field holds a double quote, the line splits back into exactly its fields |
| Viewer.CsvLineAmbiguous | view_data.py:275 | because embedded quotes are not doubled, two different field lists can produce the same line |
| Viewer.CsvExport | view_data.py:221-275 | no output for an empty store; otherwise the header line, then one line per stored event, noise included, newest first |
| Viewer.CsvCoversStore | view_data.py:242-258 | every stored event, noise included, has its line in the export |
| Viewer.ExportCsv | view_data.py:221-275 | no output for an empty store; otherwise the header line and then the written line of each stored event, newest first |
| Viewer.ExportCsvCovers | view_data.py:242-275 | every stored event has its written line in the export |
| Client.Either | static/js/clickstream.js:106 | JavaScript `a \|\| b` on strings: `a` unless it is empty |
| Client.IsButton | static/js/clickstream.js:95 | a target is a button exactly when its tag is `BUTTON` or its class list holds `btn` |
| Client.LinkContext | static/js/clickstream.js:116-126 | the first rule the address matches, in the order course, lesson, dashboard, admin, then login or register, decides the context; `unknown` exactly when none matches |
| Client.AdminCourseLink | static/js/clickstream.js:121-124 | a course link inside the admin pages is course navigation |
| Client.ButtonContext | static/js/clickstream.js:96-104 | the first of `btn-primary`, `btn-secondary`, `btn-success`, `btn-danger`, `btn-large` present decides the context; `primary_action` exactly when `btn-primary` is present; `unknown` exactly when none is |
| Client.ContainsTail | static/js/clickstream.js:145 | text containing `a + b` contains `b` |
| Client.FormContext | static/js/clickstream.js:139-145 | no form gives `unknown`; an action containing `/login` gives `login_form`, else one containing `/register` gives `register_form`, else `unknown`; `admin_login_form` is never reported |
| Client.AdminLoginIsLogin | static/js/clickstream.js:143-145 | the admin login form reports itself as `login_form` |
| Client.ButtonClick | static/js/clickstream.js:106-112 | a button click is a `click` event of element type `button` whose id is the trimmed text, or the class attribute when that is empty |
| Client.ButtonPayload | static/js/clickstream.js:106-112 | the payload carries the trimmed button text as `button_text` and the button context as `button_context` |
| Client.LinkClick | static/js/clickstream.js:128-134 | a link click is a `click` event of element type `link` whose id is the link's address |
| Client.LinkPayload | static/js/clickstream.js:128-134 | the payload carries the trimmed link text as `link_text` and the link context, and no `button_text` |
| Client.FormClick | static/js/clickstream.js:147-153 | a submit click is a `click` event of element type `form` with id `form_submit` |
| Client.FormPayload | static/js/clickstream.js:147-153 | the payload carries the form context, and neither a button nor a link text |
| Client.QuizClick | static/js/clickstream.js:161-168 | a radio or checkbox click is a `click` event of element type `quiz_input` whose id is the value, or the name when the value is empty |
| Client.QuizPayload | static/js/clickstream.js:161-168 | the payload carries the chosen value as `input_value`, and neither a button nor a link text |
| Client.NavClick | static/js/clickstream.js:172-177 | a menu click is a `click` event of element type `navigation_menu` whose id is the trimmed text, or the class attribute |
| Client.NavPayload | static/js/clickstream.js:173-177 | the payload carries the trimmed item text as `menu_item`, and neither a button nor a link text |
| Client.When | static/js/clickstream.js:95 | a guarded check contributes its event exactly when its test holds |
| Client.ClickEvents | static/js/clickstream.js:91-179 | one click gives at most five events, all `click`; their element types are `button`, `link`, `form`, `quiz_input`, `navigation_menu` for exactly the tests that hold, in that order |
| Client.Collect | static/js/clickstream.js:94-178 | five independent tests keep their events in test order: each event appears exactly when its test holds |
| Client.ElementTypes | static/js/clickstream.js:91-179 | the element types of the events, in order |
| Client.NavButtonLinkThreeEvents | static/js/clickstream.js:95-178 | a `.btn` link inside the navigation menu is reported three times: as a button, as a link and as a menu item |
| Client.MouseStep | static/js/clickstream.js:275-286 | a report records its time and position; anything else leaves the state unchanged |
| Client.Throttle | static/js/clickstream.js:264-287 | never more reports than movements; with `ThrottleSnoc`, exactly the movements the listener reports, in order |
| Client.After | static/js/clickstream.js:265-286 | the listener's state after a run of movements is its start state while nothing was reported, else the time and position of the last report |
| Client.ThrottleSnoc | static/js/clickstream.js:269-286 | one more movement is reported exactly when the listener, in the state the earlier movements left, reports it, and the state advances by that one step |
| Client.Reports | static/js/clickstream.js:271-275 | a movement is reported when more than 5000 ms have passed since the last report and it lies more than 100 px from the last reported position along either axis |
| Client.MouseEvent | static/js/clickstream.js:276-282 | a report is sent as a `mouse_movement` on `mouse_move` of type `mouse` |
| Client.MousePayload | static/js/clickstream.js:276-282 | the payload names the position, the distances from the last reported position and the page, in that order, and a reported movement has a distance above 100 along some axis |
| Client.ThrottleSpacing | static/js/clickstream.js:275-285 | the first report is more than 5000 ms after the start state, and each later report more than 5000 ms after the previous one, whatever the clock does |
| Client.ThrottleDistance | static/js/clickstream.js:271-285 | each report is more than 100 px from the previous one along some axis |
| Client.ThrottleReportsMoves | static/js/clickstream.js:269-286 | every report is one of the movements |
| Client.KeyCombo | static/js/clickstream.js:294-298 | a combination is produced exactly when Control or Meta is held |
| Client.KeyEvent | static/js/clickstream.js:294-307 | a `keyboard` event is sent exactly when Control or Meta is held, with the combination as its element id |
| Client.KeyPayload | static/js/clickstream.js:300-306 | a key-combination payload holds the key and the four modifier flags, and none of the six column keys |
| Client.UpperHasNoLower | static/js/clickstream.js:298 | an upper-cased key has no lower-case letter |
| Client.NoModifierPrefix | static/js/clickstream.js:296-298 | text without lower-case letters starts with neither `Ctrl+` nor `Cmd+` |
| Client.DecodeModifiers | static/js/clickstream.js:296-298 | the modifier prefixes can be read back off a key that does not start with either |
| Client.ComboRoundTrip | static/js/clickstream.js:295-298 | the combination text determines the modifiers and the upper-cased key |
| Client.RoundSeconds | static/js/clickstream.js:240 | `Math.round(ms / 1000)` is the whole second within half a second of the elapsed time |
| Client.TimeTick | static/js/clickstream.js:239-247 | a `time_on_page` event of element type `time` is sent exactly when the rounded seconds are a positive multiple of 60 |
| Client.TickOnTheMinute | static/js/clickstream.js:239-242 | on the k-th tick, a report is sent exactly when k is a positive multiple of 60 |
| Client.TimeIdSeconds | static/js/clickstream.js:243 | the element id `time_<s>s` names the elapsed seconds, which parse back from it |
| Client.GetAfter | static/js/clickstream.js:46-49 | a key added after a dict spread that lacks it leaves the spread keys' values unchanged |
| Client.Stamped | static/js/clickstream.js:46-49 | a queued entry is the posted body plus a `timestamp` field holding the failure time, with every other key unchanged |
| Client.StoreFailedEvent | static/js/clickstream.js:44-51 | the queue grows by one entry at the end, leaving earlier entries unchanged |
| Client.EventData | static/js/clickstream.js:16-22 | the body a call posts: its event type, element id, element type, the page and its payload, under the keys the endpoint reads |
| Client.BodyReadsAsCall | static/js/clickstream.js:16-30 | the body a call posts is read by the endpoint as that call's event type, element id, element type, page and payload |
| Ingestion.ReadsPosted | static/js/clickstream.js:16-22 | a body with the five keys in the order the browser posts them reads back as exactly those five values |
| Client.Stored | app.py:184-225 | a client call whose payload names none of the six column keys is stored under its own event type, element id and element type |
| Client.MouseIsNoise | static/js/clickstream.js:276-282 | throttled mouse movements are stored, but every report discards them as noise |
| Client.TickIsNoise | static/js/clickstream.js:243-246 | time-on-page ticks are stored, and are noise |
| Client.KeyboardIsMeaningful | static/js/clickstream.js:300-306 | key combinations are stored and kept by every report |
| Client.StoredMeaningful | app.py:184-225 | a call of a type other than the noise types, whose payload names none of the six column keys, is stored and kept by every report |
| Pipeline.QuestionCallNarrated | app.py:264-270 | a per-question quiz call is described in the activity report as an answered question |
| Pipeline.CompletionCallNarrated | app.py:285-286 | the completion call is described with the score it carries |
| Pipeline.EmptyPayloadDescriptions | app.py:396-408 | the spreadsheet describes an event sent without a payload by the empty text, but a server-side call with an empty payload by its element id |
| Pipeline.ButtonClickDescribed | static/js/clickstream.js:106-112 | a browser button click is stored and described as a click on a button element, with the browser's id and the button text as its note |
| Pipeline.LinkClickDescribed | static/js/clickstream.js:128-134 | a browser link click is stored and described as a click on a navigation element whose id is the link's address, with the link text as its note |
| Pipeline.ClickPipe | app.py:184-225 | any browser click whose payload is a dict without column keys is stored and described by its component, its element id and its control note |
| Pipeline.ClickStored | app.py:184-225 | a click the browser posts is stored with its event type, element id, element type and payload |
| Pipeline.ButtonNote | app.py:543-544 | the control note of a button click is its text |

## Left out

- Flask routing, templates, flash and redirect are not modelled. They are web plumbing.
- The admin `is_admin` gate is not modelled. Every report is taken as seen by an admin.
- Log-in, registration and password hashing are not modelled. They are authentication plumbing.
- The SQLAlchemy and sqlite3 sessions, commits and connections are not modelled. The store is a `seq<Event>` and the insertion time is an input.
- Persistence failures are not caught anywhere. A failed commit is not part of the model, and nothing in the code turns one into an error reply.
- Sample-data seeding and table creation are not modelled.
- JSON text encoding and decoding are not modelled. A payload is a decoded value; `dumps` is a parameter, and `repr` of strings does not escape quotes or backslashes.
- JsonValues.Get: a decoded object is taken to have distinct keys. `json.loads` keeps the last value of a repeated key at the first key's position, while `Get` returns the first value and `Excel.PairTexts` lists every pair.
- Ingestion.ApiTrackBody: a body that is not JSON at all, or is not sent as JSON, is refused by Flask before the route runs (HTTP 400 or 415). The model starts from a decoded body.
- Floating point is not modelled. Python's float text (`floatStr`) and SQLite's float text (`realText`) are parameters. `getClickLocation` geometry is the `loc` input. So `Quiz.Score` is the exact real: for 11 of 20 correct it is 55, where Python computes and prints `55.00000000000001`.
- SQLite type affinity is modelled for what is bound to a column, not for what is read back. A text column stores a number or a boolean as its text (`Events.BoundText`). The `Float` column `video_time` holds what Python's `float` made of the value (`Events.FloatOf`).
- Events.FloatOf: Python's `float` also reads `inf`, `infinity` and `nan` in any case, digits grouped with underscores and non-ASCII decimal digits; the model refuses them. A literal too large for a double, such as `1e400`, becomes infinity in Python and is stored; the model keeps the exact value. No value is rounded to a double.
- Timestamps.CivilFromDays: Python's `datetime` ends at the year 9999, while the model gives a date for any day count. The stored timestamps come from the clock.
- Case mapping covers ASCII letters only. `str.title`, `str.lower` and `toUpperCase` leave all other characters unchanged. `str.isdigit` and `int` accept ASCII digits only. A non-ASCII letter therefore does not start or continue a word: Python gives `'éa'.title() == 'Éa'`, while `Title` gives `éA`.
- Ties in `ORDER BY … DESC` are broken by store order (a stable sort), as are ties among equal group counts. The database gives no order for either.
- The order of the two `GROUP BY user_id IS NULL` lines is fixed, with `Authenticated` first. The database gives no order.
- Quiz.SubmitQuiz: the lesson's existence and its questions are inputs (`lessonExists` and `questionsOf` in `Quiz.SubmitQuizBody`), so how the database resolves a `lesson_id` of another type, such as `"3"` or `3.0`, is not modelled. A body that is not JSON at all is refused by Flask before the route runs. Saving a non-integer lesson id in `QuizAttempt.lesson_id` is not modelled either; `Quiz.Attempt` keeps it as sent.
- openpyxl styling, BytesIO and the HTTP response headers are not modelled. They do not affect cell values or widths.
- `Excel.Sheet` and `Viewer.CsvExport` take the row function as a parameter. `Excel.ExportExcel` instantiates it with `Excel.Row`, and `Viewer.ExportCsv` with `Viewer.CsvRow`.
- Excel.Sheet: openpyxl's own checks on cell values are not modelled. It cuts a text cell to 32,767 characters, and it raises `IllegalCharacterError` for control characters (U+0000 to U+0008, U+000B, U+000C, U+000E to U+001F). So a payload such as `{"note": "a\u0001b"}` makes the export fail with HTTP 500, while the model returns the full sheet.
- Viewer.ParseLimit: the 4,300-digit cap is the default limit on `int` conversion in current Python releases; older releases have none. `str.isdigit` also accepts non-ASCII digits, which `int` may reject; only ASCII digits are modelled.
- Viewer.CsvExport: the header line is written as a literal in field order, but no lemma proves that it has fourteen names. Only the field count of data lines is proved.
- Users, courses, lessons and quiz attempts are only printed by the viewer, so their listings are not modelled. The same goes for the last-24-hours count, which reads SQLite's clock, and for the menu loop beyond the limit prompt.
- Browser plumbing is not modelled: `fetch`, `localStorage`/`sessionStorage` and the JSON round trip of the stored queue. A malformed stored queue is not modelled either; the queue is a sequence input.
- `generateSessionId` is not modelled. It uses the clock and randomness.
- `retryFailedEvents` is not modelled. Its callbacks splice a shared array by stale indices, so its result depends on the order in which they run.
- `trackPageView`, `trackFormInteractions`, the page-exit, resize and visibility trackers, and the DOM listener wiring are not modelled. They only forward fixed payloads.
- `getQuestionText` is the `questionText` input of a click target. `classList` and `className` are separate inputs.
- test_tracking.py is not modelled. It sends HTTP requests to a live server and checks status codes.
