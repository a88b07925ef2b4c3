/**
 * BeWorkViewTemplate: picks the screen the beWork view shows and the requests
 * its buttons send. The widget tree (divs, grids, fields, icons, translated
 * labels) is reduced to what it decides: which screen, which project and day,
 * the total of hours, the label of the start button, and the request behind
 * every button.
 */
module WorkViewTemplate {
  import opened Wrappers
  import opened JsValues
  import opened Calendar
  import opened WorkNames
  import WorkProject
  import WorkRecord
  import opened TimecardService
  import opened WorkViewController

  /*
   * The requests the buttons send. A BeWorkProject or BeWorkRecord placed in
   * a payload travels as its `valueOf()`.
   */

  /** `_goListProjectsView()`. */
  function ListProjectsRequest(): Request {
    Request(Post, Obj(map["action" := Str(ListProjects.Name())]))
  }

  /** `_goListRecordsView(project, date)`. */
  function ListRecordsRequest(project: WorkProject.Project, date: Value): Request {
    Request(Post, Obj(map["action" := Str(ListRecords.Name()), "project" := project.ValueOf(), "date" := date]))
  }

  /** `_onStartNewRecordClick(project, date)`. */
  function StartNewRecordRequest(project: WorkProject.Project, date: Value): Request {
    Request(Post, Obj(map["action" := Str(StartNewRecord.Name()), "project" := project.ValueOf(), "date" := date]))
  }

  /** `_onStopRecordClick(record, date)`. */
  function StopRecordRequest(record: WorkRecord.Record, date: Value): Request {
    Request(Post, Obj(map["action" := Str(StopRecord.Name()), "record" := record.ValueOf(), "date" := date]))
  }

  /** `_onDeleteRecordClick(record)`. */
  function DeleteRecordRequest(record: WorkRecord.Record): Request {
    Request(Post, Obj(map["action" := Str(DeleteRecord.Name()), "record" := record.ValueOf()]))
  }

  /*
   * The screens
   */

  /** The label of the start button: start recording today, add a record on another day. */
  datatype StartLabel = StartRecording | AddRecord

  /** The last cell of a record row: the edit form (with its delete button) or the stop button. */
  datatype RowButton =
    | EditForm(deleteRequest: Request)
    | StopButton(stopRequest: Request)

  /** One row of the record grid. */
  datatype RecordRowView = RecordRowView(record: WorkRecord.Record, hours: real, button: RowButton)

  /** What `_renderRecordsView` shows. */
  datatype RecordsView = RecordsView(
    project: WorkProject.Project,
    date: Value,
    totalHours: real,
    startLabel: StartLabel,
    startRequest: Request,
    previousRequest: Request,
    nextRequest: Request,
    listProjectsRequest: Request,
    rows: seq<RecordRowView>)

  /** One row of the project grid: the project and the request its open button sends. */
  datatype ProjectRowView = ProjectRowView(project: WorkProject.Project, openRequest: Request)

  /** What `render` returns: the empty div, the project list or a project's records of a day. */
  datatype Screen =
    | Empty
    | ProjectsScreen(projects: seq<ProjectRowView>)
    | RecordsScreen(records: RecordsView)

  /** `moment(date).add(days, 'days').toISOString()`: null when moment cannot read `date`. */
  function ShiftDate(date: Value, days: int, now: int): (r: Value)
    ensures Moment(date, now).None? ==> r == Null
    ensures Moment(date, now).Some? ==> r == DateString(AddDays(Moment(date, now).value, days))
  {
    IsoString(if Moment(date, now).Some? then Some(AddDays(Moment(date, now).value, days)) else None)
  }

  /** `_.reduce(records, (sum, record) => sum + record.hours, 0)`, with the corrected `hours`. */
  function TotalHours(records: seq<WorkRecord.Record>, now: int): (total: real)
    requires forall rec | rec in records :: rec.Valid()
    ensures total >= 0.0
    ensures forall rec | rec in records :: rec.Hours(now) <= total
    decreases |records|
  {
    if records == [] then 0.0
    else
      var init := records[..|records| - 1];
      assert forall rec | rec in init :: rec in records;
      TotalHours(init, now) + records[|records| - 1].Hours(now)
  }

  /** The total as the source computes it: NaN (None) as soon as one record has NaN hours. */
  function TotalHoursAsWritten(records: seq<WorkRecord.Record>, now: int): (total: Option<real>)
    requires forall rec | rec in records :: rec.Valid()
    ensures total.None? <==> exists rec | rec in records :: rec.lunchMinutes == Undefined
    ensures total.Some? ==> total.value == TotalHours(records, now)
    decreases |records|
  {
    if records == [] then Some(0.0)
    else
      var init := records[..|records| - 1];
      var last := records[|records| - 1];
      assert forall rec | rec in init :: rec in records;
      assert forall rec | rec in records :: rec in init || rec == last;
      match (TotalHoursAsWritten(init, now), last.HoursAsWritten(now))
      case (Some(sum), Some(hours)) => Some(sum + hours)
      case _ => None
  }

  /** The row `_renderRecordRow` builds: a finished record can be edited, a running one stopped. */
  function RecordRowOf(record: WorkRecord.Record, date: Value, now: int): (row: RecordRowView)
    requires record.Valid()
    ensures row.record == record && row.hours == record.Hours(now) && row.hours >= 0.0
    ensures row.button.StopButton? <==> record.endTime == Undefined
  {
    RecordRowView(
      record, record.Hours(now),
      if Truthy(record.endTime) then EditForm(DeleteRecordRequest(record)) else StopButton(StopRecordRequest(record, date)))
  }

  /** `_renderRecordsView(project, date, records)`. */
  function RecordsViewOf(project: WorkProject.Project, date: Value, records: seq<WorkRecord.Record>, now: int): (v: RecordsView)
    requires forall rec | rec in records :: rec.Valid()
    ensures v.project == project && v.date == date
    ensures |v.rows| == |records| && forall i | 0 <= i < |records| :: v.rows[i].record == records[i]
    ensures v.totalHours == TotalHours(records, now) && v.totalHours >= 0.0
    ensures v.startLabel == (if IsSameDay(date, now) then StartRecording else AddRecord)
  {
    RecordsView(
      project, date, TotalHours(records, now),
      if IsSameDay(date, now) then StartRecording else AddRecord,
      StartNewRecordRequest(project, date),
      ListRecordsRequest(project, ShiftDate(date, -1, now)),
      ListRecordsRequest(project, ShiftDate(date, 1, now)),
      ListProjectsRequest(),
      seq(|records|, i requires 0 <= i < |records| => RecordRowOf(records[i], date, now)))
  }

  /** `_renderProjectsView(projects)`: each project opens its records of today. */
  function ProjectsScreenOf(projects: seq<WorkProject.Project>, now: int): (s: Screen)
    ensures s.ProjectsScreen? && |s.projects| == |projects|
    ensures forall i | 0 <= i < |projects| :: s.projects[i].project == projects[i]
  {
    ProjectsScreen(seq(|projects|, i requires 0 <= i < |projects| =>
                          ProjectRowView(projects[i], ListRecordsRequest(projects[i], DateString(now)))))
  }

  /*
   * Which screen `render` picks
   */

  /** The screen `render` settles on. */
  datatype Choice = ProjectList | RecordsOf(project: WorkProject.Project)

  /**
   * The order `render` tries: the requested view, then the latest project,
   * then the only project, then the project list.
   */
  function Choose(args: ViewResult, latest: Option<WorkProject.Project>, listed: seq<WorkProject.Project>): (c: Choice)
    ensures args.view == Some(ListProjectsView) ==> c == ProjectList
    ensures args.view == Some(ListRecordsView) && args.project.Some? ==> c == RecordsOf(args.project.value)
    ensures !Explicit(args) && latest.Some? ==> c == RecordsOf(latest.value)
    ensures !Explicit(args) && latest.None? ==> (c.RecordsOf? <==> |listed| == 1)
    ensures !Explicit(args) && latest.None? && |listed| == 1 ==> c == RecordsOf(listed[0])
  {
    if args.view == Some(ListProjectsView) then ProjectList
    else if args.view == Some(ListRecordsView) && args.project.Some? then RecordsOf(args.project.value)
    else if latest.Some? then RecordsOf(latest.value)
    else if |listed| == 1 then RecordsOf(listed[0])
    else ProjectList
  }

  /** Whether the arguments name a screen outright. */
  predicate Explicit(args: ViewResult) {
    args.view == Some(ListProjectsView) || (args.view == Some(ListRecordsView) && args.project.Some?)
  }

  /** The records search `getRecords(project.id, date)` sends. */
  function SearchFor(project: WorkProject.Project, userId: Value, date: Value, now: int): Call {
    SearchRecordsCall(userId, project.id, DayRange(date, now).0, DayRange(date, now).1)
  }

  /** The controller queries `render` makes, in order, when each of them answers. */
  function RenderCalls(args: ViewResult, latest: Option<WorkProject.Project>, listed: seq<WorkProject.Project>,
                       userId: Value, date: Value, now: int): (calls: seq<Call>)
    ensures |calls| >= 1 && forall call | call in calls :: !call.IsMutation()
    ensures Choose(args, latest, listed).ProjectList? ==> calls[|calls| - 1] == SearchProjectsCall(userId)
    ensures Choose(args, latest, listed).RecordsOf? ==>
              calls[|calls| - 1] == SearchFor(Choose(args, latest, listed).project, userId, date, now)
  {
    if args.view == Some(ListProjectsView) then [SearchProjectsCall(userId)]
    else if args.view == Some(ListRecordsView) && args.project.Some? then [SearchFor(args.project.value, userId, date, now)]
    else if latest.Some? then [LatestProjectCall(userId), SearchFor(latest.value, userId, date, now)]
    else if |listed| == 1 then [LatestProjectCall(userId), SearchProjectsCall(userId), SearchFor(listed[0], userId, date, now)]
    else [LatestProjectCall(userId), SearchProjectsCall(userId)]
  }

  /**
   * `screen` is the records view of `project` on the day of `date`, and `shown`
   * holds exactly `userId`'s undeleted stored records of that project and day.
   */
  ghost predicate RecordsShown(project: WorkProject.Project, date: Value, now: int, shown: seq<WorkRecord.Record>,
                               userId: Value, store: Store, screen: Screen) {
    && RecordsOfDay(shown, userId, project.id, date, now, store)
    && screen == RecordsScreen(RecordsViewOf(project, date, shown, now))
  }

  /** Whether `render` asks for the project list: on request, or when there is no latest project to fall back to. */
  predicate ListFetched(args: ViewResult, latest: Option<WorkProject.Project>) {
    args.view == Some(ListProjectsView) || (!Explicit(args) && latest.None?)
  }

  /** `latest` is the controller's latest project of `userId` on `store` whenever the fallback asks for it. */
  predicate LatestAnswered(args: ViewResult, latest: Option<WorkProject.Project>, userId: Value, store: Store) {
    if Explicit(args) then latest.None? else Fetched(LatestRow(store, userId)) == Ok(latest)
  }

  /**
   * `screen` is the one `Choose` picks: `listed` is exactly the user's stored
   * projects whenever the list is fetched, and the records shown are those of
   * the chosen project and day.
   */
  ghost predicate ScreenShown(args: ViewResult, latest: Option<WorkProject.Project>, listed: seq<WorkProject.Project>,
                              shown: seq<WorkRecord.Record>, userId: Value, date: Value, now: int, store: Store, screen: Screen) {
    && (if ListFetched(args, latest) then ProjectsOfUser(listed, userId, store) else listed == [])
    && match Choose(args, latest, listed)
       case ProjectList => screen == ProjectsScreenOf(listed, now) && shown == []
       case RecordsOf(project) => RecordsShown(project, date, now, shown, userId, store, screen)
  }

  /** What `render` shows on `store` for `userId`, given the controller's answers. */
  ghost predicate Rendered(args: ViewResult, latest: Option<WorkProject.Project>, listed: seq<WorkProject.Project>,
                           shown: seq<WorkRecord.Record>, userId: Value, date: Value, now: int, store: Store, screen: Screen) {
    && LatestAnswered(args, latest, userId, store)
    && ScreenShown(args, latest, listed, shown, userId, date, now, store, screen)
  }

  /** The fallback stops at the first success: with a latest project, the project list is never fetched. */
  lemma {:induction false} LatestProjectShortCircuits(args: ViewResult, latest: Option<WorkProject.Project>,
                                                      listed: seq<WorkProject.Project>, userId: Value, date: Value, now: int)
    requires !Explicit(args) && latest.Some?
    ensures SearchProjectsCall(userId) !in RenderCalls(args, latest, listed, userId, date, now)
    ensures RenderCalls(args, latest, listed, userId, date, now)[0] == LatestProjectCall(userId)
  {
    var calls := RenderCalls(args, latest, listed, userId, date, now);
    assert calls == [LatestProjectCall(userId), calls[1]];
  }

  /*
   * What the buttons lead to
   */

  /** The projects button of a records view leads back to the project list without a service call. */
  lemma {:induction false} ListProjectsButtonLeadsToList(v: RecordsView, userId: Value, now: int, before: Store)
    requires v.listProjectsRequest == ListProjectsRequest()
    ensures Decide(v.listProjectsRequest, userId, now) == Reply(Ok(ViewResult(Some(ListProjectsView), Undefined, None)))
    ensures CallsMade(Decide(v.listProjectsRequest, userId, now), before) == []
  {
    assert Member(ListProjectsRequest().payload, "action") == Str(ListProjects.Name());
  }

  /** The open button of a project row shows that project's records of today. */
  lemma {:induction false} OpenButtonShowsToday(projects: seq<WorkProject.Project>, i: int, userId: Value, now: int)
    requires 0 <= i < |projects| && projects[i].Valid()
    ensures var row := ProjectsScreenOf(projects, now).projects[i];
            Decide(row.openRequest, userId, now) == ShowRecords(DateString(now), projects[i].id)
  {
    ListRecordsRequestShows(projects[i], DateString(now), userId, now);
  }

  /** A `listRecords` request for a project with an id shows that project's records of its date. */
  lemma {:induction false} ListRecordsRequestShows(project: WorkProject.Project, date: Value, userId: Value, now: int)
    requires Truthy(project.id)
    ensures Decide(ListRecordsRequest(project, date), userId, now) == ShowRecords(date, project.id)
  {
    var req := ListRecordsRequest(project, date);
    assert Member(req.payload, "action") == Str(ListRecords.Name());
    assert Member(Member(req.payload, "project"), "id") == project.id;
  }

  /**
   * The previous and next buttons show the same project one day earlier and
   * one day later, so going back and then forward returns to the same day.
   */
  lemma {:induction false} PagingReturnsToSameDay(project: WorkProject.Project, t: int,
                                                  records: seq<WorkRecord.Record>, earlier: seq<WorkRecord.Record>,
                                                  userId: Value, now: int)
    requires project.Valid()
    requires forall rec | rec in records :: rec.Valid()
    requires forall rec | rec in earlier :: rec.Valid()
    ensures var back := Decide(RecordsViewOf(project, DateString(t), records, now).previousRequest, userId, now);
            && back == ShowRecords(DateString(AddDays(t, -1)), project.id)
            && Day(back.date.t) == Day(t) - 1
            && Decide(RecordsViewOf(project, back.date, earlier, now).nextRequest, userId, now)
               == ShowRecords(DateString(t), project.id)
  {
    PagingRoundTrip(t);
    ListRecordsRequestShows(project, DateString(AddDays(t, -1)), userId, now);
    ListRecordsRequestShows(project, DateString(AddDays(AddDays(t, -1), 1)), userId, now);
  }

  /**
   * The start button creates a record on the shown project with its lunch
   * break. Under "start recording" (today) the record is left running; under
   * "add record" (another day) it starts and ends at 08:00 of the shown day.
   */
  lemma {:induction false} StartButtonCreatesRecord(project: WorkProject.Project, date: Value,
                                                    records: seq<WorkRecord.Record>, userId: Value, now: int)
    requires project.Valid()
    requires forall rec | rec in records :: rec.Valid()
    ensures var v := RecordsViewOf(project, date, records, now);
            var d := Decide(v.startRequest, userId, now);
            && d.Perform? && d.call.CreateRecordCall?
            && d.call.userId == userId && d.call.projectId == project.id
            && d.call.lunchMinutes == project.lunchMinutes && d.call.description == Str("")
            && (v.startLabel == StartRecording ==> d.call.endTime == At(Undefined))
            && (v.startLabel == AddRecord && date.DateString? ==>
                  d.call.startTime == At(DateString(AtEightOClock(date.t))) && d.call.endTime == d.call.startTime)
  {
    var v := RecordsViewOf(project, date, records, now);
    assert v.startRequest == StartNewRecordRequest(project, date);
    StartRequestCreatesRecord(project, date, userId, now);
  }

  /** The request behind the start button, whatever the records shown. */
  lemma {:induction false} StartRequestCreatesRecord(project: WorkProject.Project, date: Value, userId: Value, now: int)
    requires project.Valid()
    ensures var d := Decide(StartNewRecordRequest(project, date), userId, now);
            && d.Perform? && d.call.CreateRecordCall?
            && d.call.userId == userId && d.call.projectId == project.id
            && d.call.lunchMinutes == project.lunchMinutes && d.call.description == Str("")
            && (IsSameDay(date, now) ==> d.call.endTime == At(Undefined))
            && (!IsSameDay(date, now) && date.DateString? ==>
                  d.call.startTime == At(DateString(AtEightOClock(date.t))) && d.call.endTime == d.call.startTime)
  {
    var req := StartNewRecordRequest(project, date);
    assert Member(req.payload, "action") == Str(StartNewRecord.Name());
    ActionOfName(StartNewRecord);
    assert Member(req.payload, "project") == project.ValueOf();
    assert Member(req.payload, "date") == date;
    assert Decide(req, userId, now) == DecideStartNewRecord(req.payload, userId, now);
  }

  /** A running record's stop button ends that record now and keeps the shown day. */
  lemma {:induction false} StopButtonEndsRecord(record: WorkRecord.Record, date: Value, userId: Value, now: int)
    requires record.Valid() && !Truthy(record.endTime)
    ensures RecordRowOf(record, date, now).button.StopButton?
    ensures Decide(RecordRowOf(record, date, now).button.stopRequest, userId, now)
            == Perform(UpdateRecordCall(record.id, EndNow), ToRecords(Given(date), UpdatedProject))
  {
    assert RecordRowOf(record, date, now).button == StopButton(StopRecordRequest(record, date));
    StopRequestEndsRecord(record, date, userId, now);
  }

  /** The request behind the stop button. */
  lemma {:induction false} StopRequestEndsRecord(record: WorkRecord.Record, date: Value, userId: Value, now: int)
    requires record.Valid()
    ensures Decide(StopRecordRequest(record, date), userId, now)
            == Perform(UpdateRecordCall(record.id, EndNow), ToRecords(Given(date), UpdatedProject))
  {
    var req := StopRecordRequest(record, date);
    assert Member(req.payload, "action") == Str(StopRecord.Name());
    ActionOfName(StopRecord);
    assert Member(Member(req.payload, "record"), "id") == record.id;
    assert Decide(req, userId, now) == DecideStopRecord(req.payload);
  }

  /** A finished record's edit form deletes that record and then shows its own project. */
  lemma {:induction false} DeleteButtonDeletesRecord(record: WorkRecord.Record, date: Value, userId: Value, now: int)
    requires record.Valid() && Truthy(record.endTime)
    ensures RecordRowOf(record, date, now).button.EditForm?
    ensures Decide(RecordRowOf(record, date, now).button.deleteRequest, userId, now)
            == Perform(UpdateRecordCall(record.id, MarkDeleted), ToRecords(UpdatedStart, Given(record.projectId)))
  {
    assert RecordRowOf(record, date, now).button == EditForm(DeleteRecordRequest(record));
    DeleteRequestDeletesRecord(record, userId, now);
  }

  /** The request behind the edit form's delete button. */
  lemma {:induction false} DeleteRequestDeletesRecord(record: WorkRecord.Record, userId: Value, now: int)
    requires record.Valid()
    ensures Decide(DeleteRecordRequest(record), userId, now)
            == Perform(UpdateRecordCall(record.id, MarkDeleted), ToRecords(UpdatedStart, Given(record.projectId)))
  {
    var req := DeleteRecordRequest(record);
    assert Member(req.payload, "action") == Str(DeleteRecord.Name());
    ActionOfName(DeleteRecord);
    assert Member(Member(req.payload, "record"), "id") == record.id;
    assert Decide(req, userId, now) == DecideDeleteRecord(req.payload);
  }

  /** The total is additive: the total of two lists of records is the sum of their totals. */
  lemma {:induction false} TotalHoursAppend(a: seq<WorkRecord.Record>, b: seq<WorkRecord.Record>, now: int)
    requires forall rec | rec in a :: rec.Valid()
    requires forall rec | rec in b :: rec.Valid()
    ensures forall rec | rec in a + b :: rec.Valid()
    ensures TotalHours(a + b, now) == TotalHours(a, now) + TotalHours(b, now)
    decreases |b|
  {
    if b == [] {
      assert a + b == a;
    } else {
      var init := b[..|b| - 1];
      assert forall rec | rec in init :: rec in b;
      TotalHoursAppend(a, init, now);
      assert (a + b)[..|a + b| - 1] == a + init;
      assert (a + b)[|a + b| - 1] == b[|b| - 1];
    }
  }

  /** The project list `render` shows when it fetched the list and `Choose` settles on it. */
  lemma {:induction false} ProjectListShown(args: ViewResult, latest: Option<WorkProject.Project>,
                                            listed: seq<WorkProject.Project>, userId: Value, date: Value, now: int,
                                            store: Store)
    requires ListFetched(args, latest) && ProjectsOfUser(listed, userId, store)
    requires Choose(args, latest, listed).ProjectList?
    ensures ScreenShown(args, latest, listed, [], userId, date, now, store, ProjectsScreenOf(listed, now))
  {
  }

  /** The records view of the one project the user has, when there is no latest project. */
  lemma {:induction false} SoleProjectShown(listed: seq<WorkProject.Project>, shown: seq<WorkRecord.Record>,
                                            userId: Value, date: Value, now: int, store: Store, screen: Screen)
    requires ProjectsOfUser(listed, userId, store) && |listed| == 1
    requires RecordsShown(listed[0], date, now, shown, userId, store, screen)
    ensures ScreenShown(NoView, None, listed, shown, userId, date, now, store, screen)
  {
    assert Choose(NoView, None, listed) == RecordsOf(listed[0]);
  }

  /** With a latest project, the fallback asks for it, then shows its records. */
  lemma {:induction false} LatestProjectRendered(latest: Option<WorkProject.Project>, shown: seq<WorkRecord.Record>,
                                                 userId: Value, date: Value, now: int, store: Store, screen: Screen)
    requires latest.Some? && Fetched(LatestRow(store, userId)) == Ok(latest)
    requires RecordsShown(latest.value, date, now, shown, userId, store, screen)
    ensures Rendered(NoView, latest, [], shown, userId, date, now, store, screen)
  {
    ChosenProjectShown(NoView, latest, latest.value, shown, userId, date, now, store, screen);
  }

  /** Without a latest project, the fallback asks for it, then for the project list. */
  lemma {:induction false} NoLatestProjectRendered(listed: seq<WorkProject.Project>, shown: seq<WorkRecord.Record>,
                                                   userId: Value, date: Value, now: int, store: Store, screen: Screen)
    requires Fetched(LatestRow(store, userId)) == Ok(None)
    requires ScreenShown(NoView, None, listed, shown, userId, date, now, store, screen)
    ensures Rendered(NoView, None, listed, shown, userId, date, now, store, screen)
  {
  }

  /** The records search that follows the project search when the user has exactly one project. */
  function SoleProjectCalls(listed: seq<WorkProject.Project>, userId: Value, date: Value, now: int): seq<Call> {
    if |listed| == 1 then [SearchFor(listed[0], userId, date, now)] else []
  }

  /** The calls after the project search, appended to `log`: the sole project's records search, if there is one. */
  lemma {:induction false} SoleOrListCalls(log: seq<Call>, listed: seq<WorkProject.Project>, userId: Value, date: Value,
                                           now: int)
    ensures |listed| == 1 ==>
              log + [SearchProjectsCall(userId)] + [SearchFor(listed[0], userId, date, now)]
              == log + [SearchProjectsCall(userId)] + SoleProjectCalls(listed, userId, date, now)
    ensures |listed| != 1 ==>
              log + [SearchProjectsCall(userId)] == log + [SearchProjectsCall(userId)] + SoleProjectCalls(listed, userId, date, now)
  {
    if |listed| != 1 {
      assert log + [SearchProjectsCall(userId)] + [] == log + [SearchProjectsCall(userId)];
    }
  }

  /** The calls of the fallback, appended to `log`: the latest project first, then the records or the project list. */
  lemma {:induction false} FallbackCalls(log: seq<Call>, latest: Option<WorkProject.Project>,
                                         listed: seq<WorkProject.Project>, userId: Value, date: Value, now: int)
    requires latest.Some? ==> listed == []
    ensures latest.Some? ==>
              log + [LatestProjectCall(userId)] + [SearchFor(latest.value, userId, date, now)]
              == log + RenderCalls(NoView, latest, listed, userId, date, now)
    ensures latest.None? ==>
              log + [LatestProjectCall(userId)] + [SearchProjectsCall(userId)] + SoleProjectCalls(listed, userId, date, now)
              == log + RenderCalls(NoView, latest, listed, userId, date, now)
  {
    var calls := RenderCalls(NoView, latest, listed, userId, date, now);
    if latest.Some? {
      assert calls == [LatestProjectCall(userId)] + [SearchFor(latest.value, userId, date, now)];
    } else {
      assert calls == [LatestProjectCall(userId)] + [SearchProjectsCall(userId)] + SoleProjectCalls(listed, userId, date, now);
    }
  }

  /** A user with one stored project gets that project, and only it, from the project search. */
  lemma {:induction false} OneStoredProjectListed(listed: seq<WorkProject.Project>, userId: Value, store: Store, k: string)
    requires ProjectsOfUser(listed, userId, store)
    requires k in UserProjectKeys(store.projects, userId) && |UserProjectKeys(store.projects, userId)| == 1
    ensures listed == [ProjectOf(store.projects[k])]
  {
    var keys :| Enumerates(keys, UserProjectKeys(store.projects, userId)) && ProjectsAt(listed, keys, store);
    SingleListing(keys, UserProjectKeys(store.projects, userId), k);
    assert listed == [listed[0]];
  }

  /** Without a latest project, the fallback shows records exactly when the user has one stored project. */
  lemma {:induction false} OneStoredProjectShown(listed: seq<WorkProject.Project>, shown: seq<WorkRecord.Record>,
                                                 userId: Value, date: Value, now: int, store: Store, screen: Screen)
    requires Rendered(NoView, None, listed, shown, userId, date, now, store, screen)
    ensures screen.RecordsScreen? <==> |UserProjectKeys(store.projects, userId)| == 1
  {
    assert ProjectsOfUser(listed, userId, store);
    ProjectsOfUserCount(listed, userId, store);
  }

  /** That one stored project is the one whose records of the day the fallback shows. */
  lemma {:induction false} SoleStoredProjectShown(listed: seq<WorkProject.Project>, shown: seq<WorkRecord.Record>,
                                                  userId: Value, date: Value, now: int, store: Store, screen: Screen,
                                                  k: string)
    requires Rendered(NoView, None, listed, shown, userId, date, now, store, screen)
    requires k in UserProjectKeys(store.projects, userId) && |UserProjectKeys(store.projects, userId)| == 1
    ensures listed == [ProjectOf(store.projects[k])]
    ensures RecordsShown(ProjectOf(store.projects[k]), date, now, shown, userId, store, screen)
  {
    OneStoredProjectListed(listed, userId, store, k);
    assert Choose(NoView, None, listed) == RecordsOf(listed[0]);
  }

  /*
   * When `render` succeeds: exactly when none of the constructors it runs on
   * the service's answers throws, and every project id it searches with is a UUID.
   */

  /** With exactly one stored project, that project's records of the day convert. */
  predicate SoleRecordsConvert(userId: Value, date: Value, now: int, store: Store) {
    forall k | k in UserProjectKeys(store.projects, userId) && |UserProjectKeys(store.projects, userId)| == 1 ::
      DayRecordsConvert(store, userId, store.projects[k].id, date, now)
  }

  /** The fallback without a latest project succeeds: the user's projects convert, and so do the sole project's records. */
  predicate SoleOrListAvailable(userId: Value, date: Value, now: int, store: Store) {
    UserProjectsConvert(store, userId) && SoleRecordsConvert(userId, date, now, store)
  }

  /** The fallback succeeds: the latest project converts and so do its records, or, without one, as above. */
  predicate FallbackAvailable(userId: Value, date: Value, now: int, store: Store) {
    match Fetched(LatestRow(store, userId))
    case Err(_) => false
    case Ok(None) => SoleOrListAvailable(userId, date, now, store)
    case Ok(Some(project)) => DayRecordsConvert(store, userId, project.id, date, now)
  }

  /** An authenticated `render(args)` succeeds. */
  predicate RenderAvailable(args: ViewResult, userId: Value, date: Value, now: int, store: Store) {
    if args.view == Some(ListProjectsView) then UserProjectsConvert(store, userId)
    else if args.view == Some(ListRecordsView) && args.project.Some? then
      DayRecordsConvert(store, userId, args.project.value.id, date, now)
    else FallbackAvailable(userId, date, now, store)
  }

  /** Once the project list is in, the sole project's records convert exactly when the listed project's do. */
  lemma {:induction false} ListedSoleRecordsConvert(listed: seq<WorkProject.Project>, userId: Value, date: Value,
                                                    now: int, store: Store)
    requires ProjectsOfUser(listed, userId, store)
    ensures |listed| == 1 ==>
              (SoleRecordsConvert(userId, date, now, store) <==> DayRecordsConvert(store, userId, listed[0].id, date, now))
    ensures |listed| != 1 ==> SoleRecordsConvert(userId, date, now, store)
  {
    ProjectsOfUserCount(listed, userId, store);
    if |listed| == 1 {
      var keys := UserProjectKeys(store.projects, userId);
      var k :| k in keys;
      OneStoredProjectListed(listed, userId, store, k);
      OnlyElement(keys, k);
      SoleKeyRecordsConvert(userId, date, now, store, k);
    }
  }

  /** When `k` is the user's only stored project, the sole project's records are that project's. */
  lemma {:induction false} SoleKeyRecordsConvert(userId: Value, date: Value, now: int, store: Store, k: string)
    requires UserProjectKeys(store.projects, userId) == {k}
    ensures SoleRecordsConvert(userId, date, now, store) <==> DayRecordsConvert(store, userId, store.projects[k].id, date, now)
  {
    assert k in UserProjectKeys(store.projects, userId);
  }

  /** The records view of a project `Choose` picks without fetching the list. */
  lemma {:induction false} ChosenProjectShown(args: ViewResult, latest: Option<WorkProject.Project>,
                                              project: WorkProject.Project, shown: seq<WorkRecord.Record>,
                                              userId: Value, date: Value, now: int, store: Store, screen: Screen)
    requires !ListFetched(args, latest) && Choose(args, latest, []) == RecordsOf(project)
    requires RecordsShown(project, date, now, shown, userId, store, screen)
    ensures ScreenShown(args, latest, [], shown, userId, date, now, store, screen)
  {
  }

  /*
   * The template object
   */

  class ViewTemplate {
    var controller: Controller?

    constructor ()
      ensures controller == null
    {
      controller := null;
    }

    /** `setController`: the controller NorJS binds replaces the current one. */
    method SetController(c: Controller?)
      modifies this
      ensures controller == c
    {
      if c != controller {
        controller := c;
      }
    }

    /** `destroy`: the controller is dropped. */
    method Destroy()
      modifies this
      ensures controller == null
    {
      controller := null;
    }

    /** The objects `render` may change: the bound controller's service. */
    function Services(): set<object>
      reads this
    {
      if controller == null then {} else {controller.service}
    }

    /** `getRecords(project.id, date)` followed by `_renderRecordsView(project, date, records)`. */
    method RenderRecords(project: WorkProject.Project, date: Value, now: int)
      returns (r: Outcome<Screen>, ghost shown: seq<WorkRecord.Record>)
      requires controller != null
      modifies controller.service
      ensures controller.service.State() == old(controller.service.State())
      ensures r.Ok? <==> DayRecordsConvert(controller.service.State(), controller.UserId(), project.id, date, now)
      ensures r.Ok? ==> && controller.service.log == old(controller.service.log) + [SearchFor(project, controller.UserId(), date, now)]
                        && RecordsShown(project, date, now, shown, controller.UserId(), controller.service.State(), r.value)
    {
      shown := [];
      var records :- controller.GetRecords(project.id, date, now);
      shown := records;
      r := Ok(RecordsScreen(RecordsViewOf(project, date, records, now)));
    }

    /** The fallback of `render`: the latest project, then the only project, then the project list. */
    method RenderFallback(date: Value, now: int)
      returns (r: Outcome<Screen>, ghost latest: Option<WorkProject.Project>, ghost listed: seq<WorkProject.Project>,
               ghost shown: seq<WorkRecord.Record>)
      requires controller != null
      modifies controller.service
      ensures controller.service.State() == old(controller.service.State())
      ensures r.Ok? <==> FallbackAvailable(old(controller.UserId()), date, now, old(controller.service.State()))
      ensures r.Ok? ==>
                controller.service.log
                == old(controller.service.log) + RenderCalls(NoView, latest, listed, old(controller.UserId()), date, now)
      ensures r.Ok? ==>
                Rendered(NoView, latest, listed, shown, old(controller.UserId()), date, now, old(controller.service.State()),
                         r.value)
    {
      latest, listed, shown := None, [], [];
      var answer := controller.GetLatestProject();
      if answer.Err? {
        r := Err(answer.error);
      } else if answer.value.Some? {
        latest := answer.value;
        r, shown := RenderLatest(answer.value.value, date, now);
      } else {
        r, listed, shown := RenderSoleOrList(date, now);
      }
      FallbackCalls(old(controller.service.log), latest, listed, old(controller.UserId()), date, now);
    }

    /** The fallback with a latest project: the records view of that project. */
    method RenderLatest(project: WorkProject.Project, date: Value, now: int)
      returns (r: Outcome<Screen>, ghost shown: seq<WorkRecord.Record>)
      requires controller != null
      requires Fetched(LatestRow(controller.service.State(), controller.UserId())) == Ok(Some(project))
      modifies controller.service
      ensures controller.service.State() == old(controller.service.State())
      ensures r.Ok? <==> DayRecordsConvert(controller.service.State(), controller.UserId(), project.id, date, now)
      ensures r.Ok? ==>
                && controller.service.log == old(controller.service.log) + [SearchFor(project, old(controller.UserId()), date, now)]
                && Rendered(NoView, Some(project), [], shown, old(controller.UserId()), date, now,
                            old(controller.service.State()), r.value)
    {
      r, shown := RenderRecords(project, date, now);
      if r.Ok? {
        LatestProjectRendered(Some(project), shown, controller.UserId(), date, now, controller.service.State(), r.value);
      }
    }

    /** The end of the fallback, without a latest project: the only project, else the project list. */
    method RenderSoleOrList(date: Value, now: int)
      returns (r: Outcome<Screen>, ghost listed: seq<WorkProject.Project>, ghost shown: seq<WorkRecord.Record>)
      requires controller != null
      requires Fetched(LatestRow(controller.service.State(), controller.UserId())) == Ok(None)
      modifies controller.service
      ensures controller.service.State() == old(controller.service.State())
      ensures r.Ok? <==> SoleOrListAvailable(controller.UserId(), date, now, controller.service.State())
      ensures r.Ok? ==>
                && controller.service.log
                   == old(controller.service.log) + [SearchProjectsCall(controller.UserId())]
                      + SoleProjectCalls(listed, controller.UserId(), date, now)
                && Rendered(NoView, None, listed, shown, controller.UserId(), date, now, controller.service.State(), r.value)
    {
      listed, shown := [], [];
      var projects :- controller.GetProjects();
      listed := projects;
      ListedSoleRecordsConvert(projects, controller.UserId(), date, now, controller.service.State());
      if |projects| == 1 {
        r, shown := RenderRecords(projects[0], date, now);
        if r.Ok? {
          SoleProjectShown(projects, shown, controller.UserId(), date, now, controller.service.State(), r.value);
        }
      } else {
        r := Ok(ProjectsScreenOf(projects, now));
        ProjectListShown(NoView, None, projects, controller.UserId(), date, now, controller.service.State());
      }
      if r.Ok? {
        NoLatestProjectRendered(listed, shown, controller.UserId(), date, now, controller.service.State(), r.value);
        SoleOrListCalls(old(controller.service.log), listed, controller.UserId(), date, now);
      }
    }

    /**
     * `render({view, project, date})`. The ghost results are what the
     * controller answered when it was asked for the latest project, for the
     * project list and for the records shown.
     */
    method Render(args: ViewResult, now: int)
      returns (r: Outcome<Screen>, ghost latest: Option<WorkProject.Project>, ghost listed: seq<WorkProject.Project>,
               ghost shown: seq<WorkRecord.Record>)
      modifies Services()
      ensures controller == null ==> r == Err(NoController)
      ensures controller != null ==> controller.service.State() == old(controller.service.State())
      ensures controller != null && !controller.IsAuthenticated() ==>
                r == Ok(Empty) && controller.service.log == old(controller.service.log)
      ensures controller != null && controller.IsAuthenticated() ==>
                var date := if Truthy(args.date) then args.date else DateString(now);
                r.Ok? <==> RenderAvailable(args, controller.UserId(), date, now, controller.service.State())
      ensures controller != null && controller.IsAuthenticated() && r.Ok? ==>
                var date := if Truthy(args.date) then args.date else DateString(now);
                && controller.service.log
                   == old(controller.service.log) + RenderCalls(args, latest, listed, controller.UserId(), date, now)
                && Rendered(args, latest, listed, shown, controller.UserId(), date, now, controller.service.State(), r.value)
    {
      latest, listed, shown := None, [], [];
      var date := args.date;
      if !Truthy(date) {
        date := DateString(now);
      }
      if controller == null {
        return Err(NoController), latest, listed, shown;
      }
      if !controller.IsAuthenticated() {
        return Ok(Empty), latest, listed, shown;
      }
      if args.view == Some(ListProjectsView) {
        var projects :- controller.GetProjects();
        listed := projects;
        return Ok(ProjectsScreenOf(projects, now)), latest, listed, shown;
      }
      if args.view == Some(ListRecordsView) && args.project.Some? {
        r, shown := RenderRecords(args.project.value, date, now);
        return;
      }
      r, latest, listed, shown := RenderFallback(date, now);
    }
  }
}
