# beWork view — a verified model

beWork is the time-tracking view of the NorJS timecard sample app. A user keeps
projects, and on each project records periods of work (start, end, lunch break,
description). The view has two parts:

- The **controller** (`BeWorkViewController`) receives a request from the view.
  It validates the payload and makes at most one change through the timecard
  service. Then it answers `{view, date, project}`.
- The **template** (`BeWorkViewTemplate`) turns that answer into a screen. It
  shows either the project list or one project's records of one day. It also
  builds the requests that the screen's buttons send back.

Two immutable value objects, `BeWorkProject` and `BeWorkRecord`, validate their
fields. They convert to and from the plain objects that travel in requests.

The model is written in Dafny. It has these modules:

- `JsValues`: the JavaScript values that flow through the view, truthiness, the
  `AssertUtils` checks, property access that throws on undefined/null, and
  moment's reading of a date.
- `Calendar`: instants as milliseconds on the local wall clock. It defines
  calendar days, `startOf('day')`/`endOf('day')`, the 08:00 normalisation and
  `add(n, 'days')`.
- `WorkNames`: the eight action names and the two view names.
- `WorkProject`, `WorkRecord`: the entities.
  - Constructor validation, with the checks in the source's order.
  - The getters, which are the datatype's fields.
  - `valueOf`/`parseValue` and their round trip.
  - `hours`, both as written and corrected (see Findings).
- `TimecardService`: the timecard service, which is a foreign library, seen
  only through the calls the view makes. It is a class that keeps projects and
  records by id, the `NOW` sentinel and the clock. A ghost log records every
  call made to it. `Applied` states what each mutating call does to the store.
- `WorkViewController`: the controller.
  - Each request is first decided by the pure function `Decide`. A decision is
    one of: answer at once, show a project's records, or make one mutating
    call and then answer.
  - `CallsMade`, `Answer` and `Effect` say what carrying out a decision means
    for the service's call log, for the result and for the store.
  - The handlers and `OnRequest` are proved to carry out exactly `Decide`'s
    decision.
  - The `getProject`/`getLatestProject`/`getProjects`/`getRecords` wrappers
    and the session fields are modelled as well.
- `WorkViewTemplate`: the template.
  - The screens and the requests behind every button.
  - The order in which `render` falls back (`Choose`), and the service calls it
    makes (`RenderCalls`).
  - The total of hours, and ±1-day paging.
  - Lemmas that follow each button's request through the controller's
    `Decide`.

"now" is an explicit parameter. The service's clock stands for the instant
`NOW` resolves to.

## Model

| member | source | states |
|---|---|---|
| `JsValues.Member` | src/edgeBackend/beWorkView/BeWorkViewController.js:178 | a path step on a value that is not an object, or lacks the key, gives undefined |
| `JsValues.Property` | src/edgeBackend/beWorkView/BeWorkViewController.js:296 | reading a property throws exactly on undefined or null, with that property's name, and otherwise gives the same value as a path step |
| `JsValues.Moment` | src/edgeBackend/beWorkView/BeWorkViewController.js:574 | a date string denotes its instant, undefined and the empty object denote now; null, booleans, other strings and non-empty objects are invalid moments |
| `JsValues.IsoString` | src/edgeBackend/beWorkView/BeWorkViewController.js:305 | a valid moment gives its date string, an invalid one a falsy value |
| `Calendar.DayBounds` | src/edgeBackend/beWorkView/BeWorkViewController.js:542-543 | every instant lies between the start and the end of its own day |
| `Calendar.SameDayIsWithinDay` | src/edgeBackend/beWorkView/BeWorkViewController.js:542-543 | an instant is on the day of `t` exactly when it lies between `startOf('day')` and `endOf('day')` of `t` |
| `Calendar.AddDaysShiftsDay` | src/edgeBackend/beWorkView/BeWorkViewTemplate.js:319 | adding `n` days moves to the `n`-th next calendar day and keeps the time of day |
| `Calendar.PagingRoundTrip` | src/edgeBackend/beWorkView/BeWorkViewTemplate.js:313-357 | one day back then one day forward (and the reverse) returns the same instant; each step changes the day by exactly one |
| `Calendar.AtEightOClockSameDay` | src/edgeBackend/beWorkView/BeWorkViewController.js:305 | setting 08:00:00.000 stays on the same day, lands 8 hours after its start, and is idempotent |
| `WorkNames.ActionOf` | src/edgeBackend/beWorkView/BeWorkViewController.js:180-212 | the switch selects an action only for a string strictly equal to that action's name |
| `WorkNames.ActionOfName` | src/edgeBackend/beWorkView/BeWorkAction.js:16-58 | every action name selects its own case: the eight names are distinct |
| `WorkProject.Project.ValueOf` | src/edgeBackend/beWorkView/BeWorkProject.js:158-167 | the plain object has exactly the type tag and the five fields, each equal to the project's |
| `WorkProject.New` | src/edgeBackend/beWorkView/BeWorkProject.js:55-104 | construction succeeds iff id and userId are UUIDs and each present optional field has its type; the getters then return the arguments unchanged; otherwise the first failing check (id, userId, clientId, label, lunchMinutes) is thrown |
| `WorkProject.ParseValue` | src/edgeBackend/beWorkView/BeWorkProject.js:182-213 | a falsy value throws "not defined", an instance is returned as is, a wrong type tag throws, and any project parsed from a plain object is valid |
| `WorkProject.ParseValueOfValue` | src/edgeBackend/beWorkView/BeWorkProject.js:184-211 | `parseValue(p.valueOf())` gives back `p` |
| `WorkProject.ValueOfParsed` | src/edgeBackend/beWorkView/BeWorkProject.js:192-211 | a plain object with the six keys that parses turns back into the same plain object |
| `WorkRecord.Record.HoursAsWritten` | src/edgeBackend/beWorkView/BeWorkRecord.js:204-212 | `hours` as written is NaN exactly when lunchMinutes is undefined, and otherwise equals the corrected `Hours`, which is never negative |
| `WorkRecord.Record.Hours` | src/edgeBackend/beWorkView/BeWorkRecord.js:206-210 | hours are never negative; they are elapsed hours (end "now" when there is no end) minus lunch, or 0 when lunch exceeds the elapsed time |
| `WorkRecord.Record.ValueOf` | src/edgeBackend/beWorkView/BeWorkRecord.js:218-229 | the plain object has exactly the type tag and the seven fields, each equal to the record's |
| `WorkRecord.New` | src/edgeBackend/beWorkView/BeWorkRecord.js:57-133 | construction succeeds iff id, userId and projectId are non-empty strings and each present optional field has its type; the getters then return the arguments unchanged; each of the seven checks throws its own argument error, in the source's order |
| `WorkRecord.ParseValue` | src/edgeBackend/beWorkView/BeWorkRecord.js:244-279 | a falsy value throws "not defined", an instance is returned as is, a wrong type tag throws, and any record parsed from a plain object is valid |
| `WorkRecord.ParseValueOfValue` | src/edgeBackend/beWorkView/BeWorkRecord.js:218-279 | `parseValue(r.valueOf())` rebuilds a record with the same seven fields |
| `WorkRecord.ValueOfParsed` | src/edgeBackend/beWorkView/BeWorkRecord.js:254-277 | a plain object with the type tag and the seven fields as its only keys that parses turns back into the same plain object |
| `WorkRecord.NaNHoursWithoutLunch` | src/edgeBackend/beWorkView/BeWorkRecord.js:208 | a valid one-hour record without lunchMinutes has NaN hours as written and 1 hour corrected |
| `WorkRecord.RunningHoursGrow` | src/edgeBackend/beWorkView/BeWorkRecord.js:206 | a running record's hours never shrink as time passes, and strictly grow once positive |
| `WorkViewController.IsSameDay` | src/edgeBackend/beWorkView/BeWorkViewController.js:573-575 | an absent date is today; a date is today iff it lies within today's start and end of day; a date moment cannot read is not today |
| `WorkViewController.DayRange` | src/edgeBackend/beWorkView/BeWorkViewController.js:539-544 | the search bounds are the start and end of the day of `date`, and an instant lies between them exactly when it is on that day |
| `WorkViewController.DayRangeIsTheDay` | src/edgeBackend/beWorkView/BeWorkViewController.js:542-543 | the instants between `startOf('day')` and `endOf('day')` of `m` are exactly those on the day of `m` |
| `WorkViewController.ProjectFromRow` | src/edgeBackend/beWorkView/BeWorkViewController.js:468-474 | a service row becomes the project with the same five fields, and fails exactly when that project is invalid |
| `WorkViewController.RecordFromRow` | src/edgeBackend/beWorkView/BeWorkViewController.js:548-556 | a service row becomes the record with the same fields (falsy times as undefined), and fails exactly when that record is invalid |
| `WorkViewController.ConvertAll` | src/edgeBackend/beWorkView/BeWorkViewController.js:512-521 | mapping rows succeeds iff every row converts, keeping order and length; otherwise the error is that of the first failing row |
| `WorkViewController.Fetched` | src/edgeBackend/beWorkView/BeWorkViewController.js:462-475 | no row gives undefined; a row gives the project with its fields, or throws when that project is invalid |
| `WorkViewController.ProjectFormError` | src/edgeBackend/beWorkView/BeWorkViewController.js:230-232 | a project form passes iff its label is a non-empty string, its clientId a string and its lunchMinutes a number; otherwise the first failing check is thrown |
| `WorkViewController.DecideListRecords` | src/edgeBackend/beWorkView/BeWorkViewController.js:185-192 | without a truthy `payload.project.id` the answer is `{view: listProjects, date}` with no call; otherwise that project's records for the payload's date |
| `WorkViewController.DecideCreateProject` | src/edgeBackend/beWorkView/BeWorkViewController.js:224-243 | a create is performed iff the form passes; it is one `createProject` for the session's user with the form's fields, followed by the project list; otherwise the form error |
| `WorkViewController.DecideEditProject` | src/edgeBackend/beWorkView/BeWorkViewController.js:251-278 | an update is performed iff the form passes and `payload.project` can be read; it overwrites label, clientId and lunchMinutes of `project.id`, followed by the project list |
| `WorkViewController.StartDate` | src/edgeBackend/beWorkView/BeWorkViewController.js:302-306 | the date is kept on today, becomes 08:00 of its own day otherwise, and is null or undefined when it cannot be read |
| `WorkViewController.DecideStartNewRecord` | src/edgeBackend/beWorkView/BeWorkViewController.js:286-323 | one `createRecord` for the user on `project.id` with description `''` and the project's lunch; today: start at the date (or NOW without one), no end; another day: start = end = 08:00 of it; the returned date is that date |
| `WorkViewController.CurrentPeriodError` | src/edgeBackend/beWorkView/BeWorkViewController.js:339-345 | a stop or delete passes iff the record and its id are truthy; otherwise "no current period" or "no current period id" |
| `WorkViewController.DecideStopRecord` | src/edgeBackend/beWorkView/BeWorkViewController.js:331-360 | a stop is performed iff the record and its id are present; it sets only endTime to NOW, and shows the payload date with the updated record's project |
| `WorkViewController.RecordFormError` | src/edgeBackend/beWorkView/BeWorkViewController.js:372-383 | an edit passes iff the record is an object with a UUID id, start and end are date strings, description a string and lunch a number |
| `WorkViewController.DecideEditRecord` | src/edgeBackend/beWorkView/BeWorkViewController.js:368-406 | an edit is performed iff the form passes; one update overwrites start, end, description and lunch, then shows the updated record's start day and project |
| `WorkViewController.DecideDeleteRecord` | src/edgeBackend/beWorkView/BeWorkViewController.js:414-445 | a delete is performed iff the record and its id are present; it sends only `deleted: true`, then shows the updated record's start with the payload record's project |
| `WorkViewController.Decide` | src/edgeBackend/beWorkView/BeWorkViewController.js:170-216 | GET and unknown actions answer `{view: undefined}`, `listProjects` answers the list; a performed call is always a mutation; project mutations lead to the list, record mutations to the records |
| `WorkViewController.CallsMade` | src/edgeBackend/beWorkView/BeWorkViewController.js:180-445 | an immediate answer makes no call, showing records makes one fetch, a mutation comes first and is followed by at most one fetch |
| `WorkViewController.Answer` | src/edgeBackend/beWorkView/BeWorkViewController.js:460-476 | an immediate answer is returned as decided; an update of an unknown row fails; a project in any other result is valid and is the project of a stored row |
| `WorkViewController.AtMostOneMutation` | src/edgeBackend/beWorkView/BeWorkViewController.js:180-445 | every request makes at most one mutating call, as its first call, and only when it performs one |
| `WorkViewController.RejectionMakesNoCall` | src/edgeBackend/beWorkView/BeWorkViewController.js:226-232 | a rejected request makes no service call, and only the six mutating actions can be rejected |
| `WorkViewController.StartOnAnotherDayKeepsTheDay` | src/edgeBackend/beWorkView/BeWorkViewController.js:304-312 | a record started on another day starts at 08:00 of that same day, and that date is returned |
| `WorkViewController.StopRecordShowsPayloadDate` | src/edgeBackend/beWorkView/BeWorkViewController.js:354-358 | a successful stop shows the payload's date and the stored project of the stopped record |
| `WorkViewController.EditRecordShowsNewStart` | src/edgeBackend/beWorkView/BeWorkViewController.js:400-404 | a successful edit shows the new start time of the request and the record's stored project |
| `WorkViewController.DeleteRecordShowsStoredStart` | src/edgeBackend/beWorkView/BeWorkViewController.js:439-443 | a delete fetches the project named by the payload record, and shows the stored record's unchanged start |
| `WorkViewController.Controller.constructor` | src/edgeBackend/beWorkView/BeWorkViewController.js:74-90 | a new controller has no session and no event manager |
| `WorkViewController.Controller.SetSession` | src/edgeBackend/beWorkView/BeWorkViewController.js:98-108 | the session is replaced, the event manager kept |
| `WorkViewController.Controller.SetEventManager` | src/edgeBackend/beWorkView/BeWorkViewController.js:116-124 | the event manager is replaced, the session kept |
| `WorkViewController.Controller.Destroy` | src/edgeBackend/beWorkView/BeWorkViewController.js:138-143 | session and event manager are dropped |
| `WorkViewController.Controller.IsAuthenticated` | src/edgeBackend/beWorkView/BeWorkViewController.js:149-153 | without a session the user is not authenticated; with one, the answer is the session's own authenticated flag |
| `WorkViewController.Controller.UserId` | src/edgeBackend/beWorkView/BeWorkViewController.js:451-453 | the user id is undefined without a session and the session user's `id` with one |
| `WorkViewController.Controller.GetProject` | src/edgeBackend/beWorkView/BeWorkViewController.js:460-476 | one fetch, store unchanged, the result is what `Fetched` makes of the stored row |
| `WorkViewController.Controller.GetLatestProject` | src/edgeBackend/beWorkView/BeWorkViewController.js:482-498 | one query, store unchanged; the answer is the service's latest project of the session's user, converted as `getProject` does; a latest project is valid, stored, and owned by that user |
| `TimecardService.Service.SearchProjects` | src/edgeBackend/beWorkView/BeWorkViewController.js:510 | the project search answers one row per stored project of the user, each exactly once (its keys are listed by `Enumerates`), in no particular order; the store is unchanged |
| `TimecardService.Service.SearchRecords` | src/edgeBackend/beWorkView/BeWorkViewController.js:539-544 | the records search answers one row per undeleted stored record of the user and project starting between the bounds, each exactly once, in no particular order; the store is unchanged |
| `WorkViewController.Controller.GetProjects` | src/edgeBackend/beWorkView/BeWorkViewController.js:504-523 | one search, store unchanged; it succeeds exactly when every stored project of the user is a valid BeWorkProject (`UserProjectsConvert`), and then the list holds exactly the user's stored projects, each valid and each once (`ProjectsOfUser`) |
| `WorkViewController.Controller.GetRecords` | src/edgeBackend/beWorkView/BeWorkViewController.js:531-559 | a non-UUID project id throws before any call; otherwise one search over the day's bounds; it succeeds exactly when the id is a UUID and every one of the day's matching stored records is a valid BeWorkRecord (`DayRecordsConvert`), and then the list holds exactly the user's undeleted stored records of that project starting on that day, each valid and each once (`RecordsOfDay`) |
| `WorkViewController.DayRecordKeysAreTheDay` | src/edgeBackend/beWorkView/BeWorkViewController.js:539-544 | the records the day's search matches are exactly the user's undeleted records of the project that start on the day of the date; none when moment cannot read the date |
| `WorkViewController.ProjectRowsConvert` | src/edgeBackend/beWorkView/BeWorkViewController.js:512-521 | the search's rows all convert exactly when every stored project of the user is valid |
| `WorkViewController.RecordRowsConvert` | src/edgeBackend/beWorkView/BeWorkViewController.js:548-557 | the search's rows all convert exactly when every one of the day's matching stored records is valid |
| `WorkViewController.ConvertedProjectsOfUser` | src/edgeBackend/beWorkView/BeWorkViewController.js:510-521 | converting the search's rows gives exactly the user's stored projects, each valid and each once |
| `WorkViewController.ConvertedRecordsOfDay` | src/edgeBackend/beWorkView/BeWorkViewController.js:539-557 | converting the search's rows gives exactly the day's undeleted stored records of the project, each valid and each once |
| `WorkViewController.ProjectsOfUserCount` | src/edgeBackend/beWorkView/BeWorkViewController.js:510-521 | the project list has as many entries as the user has stored projects |
| `WorkViewController.RecordsOfDayCount` | src/edgeBackend/beWorkView/BeWorkViewController.js:539-557 | the records list has as many entries as the day has matching stored records |
| `WorkViewController.CreatedProjectListed` | src/edgeBackend/beWorkView/BeWorkViewController.js:224-243 | after a `createProject` that passes the form, for a user with a UUID id whose stored projects all convert: they still all convert (so `getProjects` succeeds), the user has one more project, and every list of the user's projects holds the new one, with a fresh UUID id and the form's fields |
| `WorkViewController.CreateProjectCallListed` | src/edgeBackend/beWorkView/BeWorkViewController.js:236-240 | the same for the `createProject` call itself on a form that passes its checks |
| `WorkViewController.CreatedRecordHasUuid` | src/edgeBackend/beWorkView/BeWorkViewController.js:372-373 | the record a `startNewRecord` creates gets a fresh UUID id, which `editRecord`'s `record.id` check accepts |
| `WorkViewController.Controller.CreateProjectAction` | src/edgeBackend/beWorkView/BeWorkViewController.js:224-243 | the handler's calls, result and store change are those of `DecideCreateProject` |
| `WorkViewController.Controller.EditProjectAction` | src/edgeBackend/beWorkView/BeWorkViewController.js:251-278 | the handler's calls, result and store change are those of `DecideEditProject` |
| `WorkViewController.Controller.StartNewRecordAction` | src/edgeBackend/beWorkView/BeWorkViewController.js:286-323 | the handler's calls, result and store change are those of `DecideStartNewRecord` |
| `WorkViewController.Controller.StopRecordAction` | src/edgeBackend/beWorkView/BeWorkViewController.js:331-360 | the handler's calls, result and store change are those of `DecideStopRecord` |
| `WorkViewController.Controller.EditRecordAction` | src/edgeBackend/beWorkView/BeWorkViewController.js:368-406 | the handler's calls, result and store change are those of `DecideEditRecord` |
| `WorkViewController.Controller.DeleteRecordAction` | src/edgeBackend/beWorkView/BeWorkViewController.js:414-445 | the handler's calls, result and store change are those of `DecideDeleteRecord` |
| `WorkViewController.Controller.OnRequest` | src/edgeBackend/beWorkView/BeWorkViewController.js:170-216 | the service log grows by exactly `CallsMade`, the result is `Answer` and the store changes only by the decided mutation |
| `WorkViewTemplate.ShiftDate` | src/edgeBackend/beWorkView/BeWorkViewTemplate.js:357 | a readable date moves by the given number of days; an unreadable one gives null |
| `WorkViewTemplate.TotalHours` | src/edgeBackend/beWorkView/BeWorkViewTemplate.js:253 | the total is never negative and at least each record's hours |
| `WorkViewTemplate.TotalHoursAsWritten` | src/edgeBackend/beWorkView/BeWorkViewTemplate.js:342 | the total as written is NaN exactly when some record lacks lunchMinutes, and otherwise equals `TotalHours` |
| `WorkViewTemplate.TotalHoursAppend` | src/edgeBackend/beWorkView/BeWorkViewTemplate.js:252-253 | the total over two lists is the sum of their totals |
| `WorkViewTemplate.RecordRowOf` | src/edgeBackend/beWorkView/BeWorkViewTemplate.js:450-465 | a row offers the stop button exactly when the record has no end time, and the edit form otherwise; it shows the record's hours |
| `WorkViewTemplate.RecordsViewOf` | src/edgeBackend/beWorkView/BeWorkViewTemplate.js:249-369 | the records view shows the given project and date, the row of each record in order, the total `TotalHours` of the records, and the label "start recording" exactly when the date is today, "add record" otherwise |
| `WorkViewTemplate.ProjectsScreenOf` | src/edgeBackend/beWorkView/BeWorkViewTemplate.js:194-239 | the project list shows one row per project, in order |
| `WorkViewTemplate.Choose` | src/edgeBackend/beWorkView/BeWorkViewTemplate.js:140-184 | an explicit view wins; otherwise the latest project, then the only project, then the project list |
| `WorkViewTemplate.RenderCalls` | src/edgeBackend/beWorkView/BeWorkViewTemplate.js:146-178 | render makes only queries; its last query is the project search for the list, or the records search of the chosen project |
| `WorkViewTemplate.LatestProjectShortCircuits` | src/edgeBackend/beWorkView/BeWorkViewTemplate.js:160-168 | with a latest project the fallback asks for it first and never fetches the project list |
| `WorkViewTemplate.ListProjectsButtonLeadsToList` | src/edgeBackend/beWorkView/BeWorkViewTemplate.js:581-589 | the projects button leads to the project list without a service call |
| `WorkViewTemplate.OpenButtonShowsToday` | src/edgeBackend/beWorkView/BeWorkViewTemplate.js:508-515 | a project's open button shows that project's records of today |
| `WorkViewTemplate.PagingReturnsToSameDay` | src/edgeBackend/beWorkView/BeWorkViewTemplate.js:313-357 | previous shows the same project one day earlier, and next from there shows the original day again |
| `WorkViewTemplate.StartButtonCreatesRecord` | src/edgeBackend/beWorkView/BeWorkViewTemplate.js:288-296 | the start button creates a record on the shown project with its lunch; under "start recording" it runs open, under "add record" it starts and ends at 08:00 of the shown day |
| `WorkViewTemplate.StopButtonEndsRecord` | src/edgeBackend/beWorkView/BeWorkViewTemplate.js:459-465 | a running record's stop button ends that record at NOW and keeps the shown date |
| `WorkViewTemplate.DeleteButtonDeletesRecord` | src/edgeBackend/beWorkView/BeWorkViewTemplate.js:775-781 | a finished record's delete button flags that record deleted and then shows its own project |
| `WorkViewTemplate.OneStoredProjectListed` | src/edgeBackend/beWorkView/BeWorkViewController.js:504-523 | a user with one stored project gets that project, and only it, from `getProjects` |
| `WorkViewTemplate.OneStoredProjectShown` | src/edgeBackend/beWorkView/BeWorkViewTemplate.js:174-184 | without a latest project, the fallback shows a records view exactly when the user has one stored project, and the project list otherwise |
| `WorkViewTemplate.ListedSoleRecordsConvert` | src/edgeBackend/beWorkView/BeWorkViewTemplate.js:174-181 | once the project list is in, the sole stored project's records convert exactly when the listed project's do |
| `WorkViewTemplate.SoleStoredProjectShown` | src/edgeBackend/beWorkView/BeWorkViewTemplate.js:176-181 | that one stored project is the one listed, and the records view shown is its records of the day |
| `WorkViewTemplate.ViewTemplate.constructor` | src/edgeBackend/beWorkView/BeWorkViewTemplate.js:63-72 | a new template has no controller |
| `WorkViewTemplate.ViewTemplate.SetController` | src/edgeBackend/beWorkView/BeWorkViewTemplate.js:79-89 | the controller is replaced |
| `WorkViewTemplate.ViewTemplate.Destroy` | src/edgeBackend/beWorkView/BeWorkViewTemplate.js:101-105 | the controller is dropped |
| `WorkViewTemplate.ViewTemplate.RenderRecords` | src/edgeBackend/beWorkView/BeWorkViewTemplate.js:152-157 | succeeds exactly when `getRecords` does (`DayRecordsConvert` for the project and day); then one records search for the project and day, then that project's records view of exactly the user's undeleted stored records of that project and day, each once; the store is unchanged |
| `WorkViewTemplate.ViewTemplate.RenderFallback` | src/edgeBackend/beWorkView/BeWorkViewTemplate.js:160-184 | succeeds exactly when the latest project converts and then its day's records do, or, without one, the user's projects convert and so do the day's records of a sole project (`FallbackAvailable`); then the fallback's calls are `RenderCalls`; the latest project is the service's latest project of the user; the screen is the one `Choose` picks, the project list holding exactly the user's stored projects and a records view exactly that day's stored records, each once |
| `WorkViewTemplate.ViewTemplate.RenderLatest` | src/edgeBackend/beWorkView/BeWorkViewTemplate.js:160-167 | when the service has a latest project for the user: succeeds exactly when that project's records of the day convert; then one records search for it, then its records view of exactly the user's undeleted stored records of that day, each once, which is the screen `Choose` picks; the store is unchanged |
| `WorkViewTemplate.ViewTemplate.RenderSoleOrList` | src/edgeBackend/beWorkView/BeWorkViewTemplate.js:174-184 | when the service has no latest project for the user: succeeds exactly when the user's stored projects convert and, if there is exactly one, its records of the day do (`SoleOrListAvailable`); then one project search for exactly the user's stored projects, each once; the sole project's records of the day, otherwise the project list, which is the screen `Choose` picks |
| `WorkViewTemplate.ViewTemplate.Render` | src/edgeBackend/beWorkView/BeWorkViewTemplate.js:115-186 | no controller throws; unauthenticated gives the empty screen with no call; otherwise it succeeds exactly when every conversion it runs succeeds and every project id it searches with is a UUID (`RenderAvailable`), and the calls are `RenderCalls`, and the screen is the one `Choose` picks on the store: the user's latest project, exactly the user's stored projects, exactly the day's undeleted stored records of the chosen project, each once; a missing date defaults to now; the store never changes |

## Left out

- The widget tree is not modelled: divs, grids, fields, icons, translated labels, element ids and the create/edit forms' field lists. Only the screen chosen, the rows, the total and the request behind each button are kept.
- The framework's merging of form fields into a submit request is not modelled, so the edit forms' submit and cancel requests are left out. The delete button inside the record edit form is modelled.
- moment's locale formatting (`getShortWeekDay`, `getDateString`, `getHoursString`, the `HH:mm` cells) is left out. It only produces display text.
- Time zones and daylight saving are left out: a calendar day is a block of 24 hours of local wall-clock milliseconds.
- moment's parsing is reduced to four cases. A string moment can read is a `DateString` holding its instant, and any other string is unreadable. A number is milliseconds, truncated toward zero. `undefined` and the empty object are now.
- `JsValues.Moment`: a non-empty object is taken as an invalid moment. moment builds a date from an object of date units, and that is not modelled.
- `AssertUtils.isDateString` is taken to accept exactly the strings moment can read (`DateString` values).
- Floating point is not modelled. `duration.asHours()`, the sums and `toFixed(2)` are exact reals. NaN appears only where the Findings row needs it, as None.
- async/await, promises and logging are left out. Every call is sequential.
- The timecard service's storage and Postgres configuration are not part of this model; that library is foreign. Its methods keep projects and records in maps.
  - `getUsersLatestProject` answers the project the user last started a record on, while it is stored and still theirs (`TimecardService.LatestRow`). The real service's choice is not part of this model.
  - `updateProject` and `updateRecord` fail on an id the service does not hold. The controller's answer for such an update (`WorkViewController.Answer`: an update of an unknown row fails) rests on this. The source's `editProject` ignores `updateProject`'s result, so with a service that answered nothing it would still show the project list.
  - `searchRecords` matches undeleted records of the user and project whose start lies between the bounds.
  - Each matching row is returned once, in no particular order.
- `WorkViewController.Controller.GetRecords`: with bounds it cannot read (a date moment rejects), the model's service matches nothing. What the real service does with null bounds is unknown.
- `AssertUtils.isUuidString` is taken to accept the textual form of a UUID in section 3 of RFC 4122: 32 hexadecimal digits of either case, grouped 8-4-4-4-12 by hyphens (`JsValues.IsUuidString`). AssertUtils' own pattern is not part of this model. The `WaObjectType` type tags are uninterpreted constants whose definitions are not part of this model either.
- The service's fresh ids are UUIDs, handed out in order from a counter (`TimecardService.FreshUuid`). Real UUIDs are random, and how the real service makes them is not part of this model.
  - `TimecardService.Service.CreateProject` and `CreateRecord` promise a UUID id only while fewer than 2^128 rows are stored, because every UUID may already be taken after that. Past that bound, the id is only a fresh key.
- The view binding file `beWorkViewModule.js`, the `init` methods and the `nrName`/`Class` getters are left out. They carry no behaviour.
- `hasSession` is modelled by `WorkViewController.Controller.HasSession`, which has no contract of its own.
- The missing ownership checks that the source marks FIXME are not assumed.
  - Editing, stopping or deleting a record, or editing a project, touches whatever id the payload names.
  - `startNewRecord` uses the payload's project as given.
- `WorkViewController.Controller.OnRequest`: after a `createProject` or `createRecord`, the new store is stated only up to the fresh id the service picks (`Applied` says some unused key).
- `WorkViewTemplate.ViewTemplate.Render`: the service returns projects and records in no particular order, so the contract does not fix their order on the screen. It does fix which projects and records appear, and that each appears once. The ghost results name the lists the controller returned.

## Findings

| source | as written | input that shows it | evidently intended | confidence | as-written member | corrected member |
|---|---|---|---|---|---|---|
| src/edgeBackend/beWorkView/BeWorkRecord.js:208 | `hours` subtracts `lunchMinutes / 60`. With lunchMinutes undefined (which the constructor allows) that is NaN, and `NaN < 0` is false, so `hours` is NaN. The records view then shows "NaN h", and the day's total is NaN too. | a valid record from 00:00 to 01:00 with no lunchMinutes: as written NaN, intended 1 hour | an absent lunch break deducts nothing | high (not executed) | `WorkRecord.NaNHoursWithoutLunch` | `WorkRecord.Record.Hours` |
