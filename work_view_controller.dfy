/**
 * BeWorkViewController: turns a request from the beWork view into at most one
 * change on the timecard service and a view result for the template.
 *
 * What each request does is first stated as a pure `Decision` (`Decide`):
 * answer at once, show a project's records, or perform one mutating service
 * call and then answer. `CallsMade`, `Answer` and `Effect` say what carrying
 * out a decision means for the service's call log, for the result and for the
 * store; the controller's imperative handlers are proved to carry out exactly
 * that.
 */
module WorkViewController {
  import opened Wrappers
  import opened JsValues
  import opened Calendar
  import opened WorkNames
  import WorkProject
  import WorkRecord
  import opened TimecardService

  datatype HttpMethod = Get | Post | Put | Delete

  /** An NrRequest: its method and its payload object. */
  datatype Request = Request(httpMethod: HttpMethod, payload: Value)

  /** The response handed to the template: `{view, date, project}`; a view of None is `view: undefined`. */
  datatype ViewResult = ViewResult(view: Option<ViewName>, date: Value, project: Option<WorkProject.Project>)

  /** `{view: undefined}`. */
  const NoView := ViewResult(None, Undefined, None)

  /** The session NorJS binds: whether it is authenticated, and its `user` object. */
  datatype Session = Session(authenticated: bool, user: Value)

  /** The event manager NorJS binds; the controller only keeps it. */
  class EventManager { }

  /** Where a value of the answer comes from once the mutation is done. */
  datatype Pick =
    | Given(v: Value)   // known before the call
    | UpdatedStart      // the startTime of the record the update returned
    | UpdatedProject    // the projectId of the record the update returned

  /** What the controller answers after its mutation. */
  datatype Followup = ToProjectList | ToRecords(date: Pick, projectId: Pick)

  /** What a request makes the controller do. */
  datatype Decision =
    | Reply(result: Outcome<ViewResult>)         // answer (or throw) without calling the service
    | ShowRecords(date: Value, projectId: Value) // fetch the project, then show its records
    | Perform(call: Call, next: Followup)        // one mutating call, then the follow-up

  /** The patch `stopRecord` sends: only the end time, set to `NOW`. */
  const EndNow := RecordPatch(None, Some(Now), None, None, None)

  /** The patch `deleteRecord` sends: only the deleted flag. */
  const MarkDeleted := RecordPatch(None, None, None, None, Some(true))

  /*
   * Pure parts of the controller
   */

  /** `isSameDay(date)`: an absent date is today; otherwise whether moment puts it on today's calendar day. */
  function IsSameDay(date: Value, now: int): (r: bool)
    ensures !Truthy(date) ==> r
    ensures date.DateString? ==> (r <==> StartOfDay(now) <= date.t <= EndOfDay(now))
    ensures Truthy(date) && Moment(date, now).None? ==> !r
  {
    if !Truthy(date) then true
    else match Moment(date, now)
      case None => false
      case Some(t) => SameDayIsWithinDay(now, t); SameDay(t, now)
  }

  /** The bounds `getRecords` searches between: the start and the end of the day of `date`, as ISO strings. */
  function DayRange(date: Value, now: int): (r: (Value, Value))
    ensures Moment(date, now).None? ==> r == (Null, Null)
    ensures Moment(date, now).Some? ==>
              var m := Moment(date, now).value;
              && r.0 == DateString(StartOfDay(m)) && r.1 == DateString(EndOfDay(m))
              && forall u :: r.0.t <= u <= r.1.t <==> SameDay(m, u)
  {
    match Moment(date, now)
    case None => (Null, Null)
    case Some(m) =>
      DayRangeIsTheDay(m);
      (DateString(StartOfDay(m)), DateString(EndOfDay(m)))
  }

  lemma {:induction false} DayRangeIsTheDay(m: int)
    ensures forall u :: StartOfDay(m) <= u <= EndOfDay(m) <==> SameDay(m, u)
  {
    forall u
      ensures StartOfDay(m) <= u <= EndOfDay(m) <==> SameDay(m, u)
    {
      SameDayIsWithinDay(m, u);
    }
  }

  /** The project a service row describes, field for field. */
  function ProjectOf(row: ProjectRow): WorkProject.Project {
    WorkProject.Project(row.id, row.userId, row.clientId, row.title, row.lunchMinutes)
  }

  /** `new BeWorkProject({...})` on a service row. */
  function ProjectFromRow(row: ProjectRow): (r: Outcome<WorkProject.Project>)
    ensures r.Ok? <==> ProjectOf(row).Valid()
    ensures r.Ok? ==> r.value == ProjectOf(row)
  {
    WorkProject.New(row.id, row.userId, row.clientId, row.title, row.lunchMinutes)
  }

  /** The record a service row describes; a falsy start or end time becomes undefined. */
  function RecordOf(row: RecordRow): WorkRecord.Record {
    WorkRecord.Record(
      row.id, row.userId, row.projectId,
      if Truthy(row.startTime) then row.startTime else Undefined,
      if Truthy(row.endTime) then row.endTime else Undefined,
      row.description, row.lunchMinutes)
  }

  /** `new BeWorkRecord({...})` on a service row. */
  function RecordFromRow(row: RecordRow): (r: Outcome<WorkRecord.Record>)
    ensures r.Ok? <==> RecordOf(row).Valid()
    ensures r.Ok? ==> r.value == RecordOf(row)
  {
    var rec := RecordOf(row);
    WorkRecord.New(rec.id, rec.userId, rec.projectId, rec.startTime, rec.endTime, rec.description, rec.lunchMinutes)
  }

  /** `_.map(rows, convert)` where `convert` may throw: the first failing row's error, or every converted row. */
  function ConvertAll<R, E>(rows: seq<R>, convert: R -> Outcome<E>): (r: Outcome<seq<E>>)
    ensures r.Ok? <==> forall i | 0 <= i < |rows| :: convert(rows[i]).Ok?
    ensures r.Ok? ==> |r.value| == |rows| && forall i | 0 <= i < |rows| :: convert(rows[i]) == Ok(r.value[i])
    ensures r.Err? ==> exists i | 0 <= i < |rows| :: convert(rows[i]) == Err(r.error)
                                                    && forall j | 0 <= j < i :: convert(rows[j]).Ok?
  {
    if rows == [] then Ok([])
    else
      var first :- convert(rows[0]);
      var rest := ConvertAll(rows[1..], convert);
      if rest.Err? then
        ghost var i :| 0 <= i < |rows[1..]| && convert(rows[1..][i]) == Err(rest.error)
                      && forall j | 0 <= j < i :: convert(rows[1..][j]).Ok?;
        assert convert(rows[i + 1]) == Err(rest.error);
        assert forall j | 0 <= j < i + 1 :: convert(rows[j]).Ok? by {
          forall j | 0 <= j < i + 1
            ensures convert(rows[j]).Ok?
          {
            if j > 0 { assert rows[j] == rows[1..][j - 1]; }
          }
        }
        Err(rest.error)
      else
        assert forall i | 1 <= i < |rows| :: rows[i] == rows[1..][i - 1];
        Ok([first] + rest.value)
  }

  /** What `getProject` makes of what `fetchProject` returned. */
  function Fetched(row: Option<ProjectRow>): (r: Outcome<Option<WorkProject.Project>>)
    ensures row.None? ==> r == Ok(None)
    ensures row.Some? ==> (r.Ok? <==> ProjectOf(row.value).Valid())
    ensures r.Ok? && row.Some? ==> r.value == Some(ProjectOf(row.value))
  {
    match row
    case None => Ok(None)
    case Some(p) =>
      var project :- ProjectFromRow(p);
      Ok(Some(project))
  }

  /** `{view: listRecords, date, project}` once `getProject` has answered. */
  function RecordsReply(date: Value, fetched: Outcome<Option<WorkProject.Project>>): (r: Outcome<ViewResult>)
    ensures r.Ok? <==> fetched.Ok?
    ensures r.Ok? ==> r.value == ViewResult(Some(ListRecordsView), date, fetched.value)
    ensures r.Err? ==> r.error == fetched.error
  {
    var project :- fetched;
    Ok(ViewResult(Some(ListRecordsView), date, project))
  }

  /*
   * What each request decides
   */

  /** The first AssertUtils check on a project form that fails, if any. */
  function ProjectFormError(title: Value, clientId: Value, lunchMinutes: Value): (e: Option<Error>)
    ensures e.None? <==> IsNonEmptyString(title) && IsString(clientId) && IsNumber(lunchMinutes)
    ensures !IsNonEmptyString(title) ==> e == Some(InvalidArgument("label"))
    ensures IsNonEmptyString(title) && !IsString(clientId) ==> e == Some(InvalidArgument("clientId"))
    ensures IsNonEmptyString(title) && IsString(clientId) && !IsNumber(lunchMinutes)
            ==> e == Some(InvalidArgument("lunchMinutes"))
  {
    if !IsNonEmptyString(title) then Some(InvalidArgument("label"))
    else if !IsString(clientId) then Some(InvalidArgument("clientId"))
    else if !IsNumber(lunchMinutes) then Some(InvalidArgument("lunchMinutes"))
    else None
  }

  /** `listRecords`: without a project id, back to the project list; otherwise that project's records. */
  function DecideListRecords(p: Value): (d: Decision)
    ensures d.Reply? || d.ShowRecords?
    ensures d.Reply? <==> !Truthy(Member(Member(p, "project"), "id"))
    ensures d.Reply? ==> d.result == Ok(ViewResult(Some(ListProjectsView), Member(p, "date"), None))
    ensures d.ShowRecords? ==> d.date == Member(p, "date") && d.projectId == Member(Member(p, "project"), "id")
  {
    var date := Member(p, "date");
    var projectId := Member(Member(p, "project"), "id");
    if !Truthy(projectId) then Reply(Ok(ViewResult(Some(ListProjectsView), date, None)))
    else ShowRecords(date, projectId)
  }

  /** `createProject`: the form is checked, then the project is created for the session's user. */
  function DecideCreateProject(p: Value, userId: Value): (d: Decision)
    ensures d.Reply? || d.Perform?
    ensures d.Perform? <==> ProjectFormError(Member(p, "label"), Member(p, "clientId"), Member(p, "lunchMinutes")).None?
    ensures d.Reply? ==> d.result == Err(ProjectFormError(Member(p, "label"), Member(p, "clientId"), Member(p, "lunchMinutes")).value)
    ensures d.Perform? ==> d.next == ToProjectList
                           && d.call == CreateProjectCall(userId, Member(p, "label"), Member(p, "clientId"), Member(p, "lunchMinutes"))
  {
    var title, clientId, lunchMinutes := Member(p, "label"), Member(p, "clientId"), Member(p, "lunchMinutes");
    match ProjectFormError(title, clientId, lunchMinutes)
    case Some(e) => Reply(Err(e))
    case None => Perform(CreateProjectCall(userId, title, clientId, lunchMinutes), ToProjectList)
  }

  /** `editProject`: the form is checked, then `project.id` is read and that project updated. */
  function DecideEditProject(p: Value): (d: Decision)
    ensures d.Reply? || d.Perform?
    ensures d.Perform? <==> && ProjectFormError(Member(p, "label"), Member(p, "clientId"), Member(p, "lunchMinutes")).None?
                            && Member(p, "project") != Undefined && Member(p, "project") != Null
    ensures ProjectFormError(Member(p, "label"), Member(p, "clientId"), Member(p, "lunchMinutes")).Some?
            ==> d == Reply(Err(ProjectFormError(Member(p, "label"), Member(p, "clientId"), Member(p, "lunchMinutes")).value))
    ensures d.Perform? ==> d.next == ToProjectList
                           && d.call == UpdateProjectCall(Member(Member(p, "project"), "id"),
                                          ProjectPatch(Member(p, "label"), Member(p, "clientId"), Member(p, "lunchMinutes")))
  {
    var project := Member(p, "project");
    var title, clientId, lunchMinutes := Member(p, "label"), Member(p, "clientId"), Member(p, "lunchMinutes");
    match ProjectFormError(title, clientId, lunchMinutes)
    case Some(e) => Reply(Err(e))
    case None =>
      match Property(project, "id")
      case Err(e) => Reply(Err(e))
      case Ok(id) => Perform(UpdateProjectCall(id, ProjectPatch(title, clientId, lunchMinutes)), ToProjectList)
  }

  /** The date `startNewRecord` continues with: kept on today, otherwise moved to 08:00 of its own day. */
  function StartDate(date: Value, now: int): (r: Value)
    ensures IsSameDay(date, now) ==> r == date
    ensures !IsSameDay(date, now) && date.DateString? ==> r == DateString(AtEightOClock(date.t))
    ensures !IsSameDay(date, now) ==> (Truthy(r) <==> Moment(date, now).Some?)
  {
    if IsSameDay(date, now) then date
    else if Truthy(date) then IsoString(if Moment(date, now).Some? then Some(AtEightOClock(Moment(date, now).value)) else None)
    else Undefined
  }

  /**
   * `startNewRecord`: a record is created on the payload's project for the
   * session's user, with an empty description and the project's lunch break.
   * On today it starts at the given date (or `NOW` without one) and has no
   * end; on another day it starts and ends at 08:00 of that day.
   */
  function DecideStartNewRecord(p: Value, userId: Value, now: int): (d: Decision)
    ensures d.Reply? || d.Perform?
    ensures d.Reply? <==> Member(p, "project") == Undefined || Member(p, "project") == Null
    ensures d.Reply? ==> d.result == Err(CannotReadProperty("id"))
    ensures d.Perform? ==>
              var project, date := Member(p, "project"), StartDate(Member(p, "date"), now);
              && d.call.CreateRecordCall?
              && d.call.userId == userId && d.call.projectId == Member(project, "id")
              && d.call.description == Str("") && d.call.lunchMinutes == Member(project, "lunchMinutes")
              && d.next == ToRecords(Given(date), Given(Member(project, "id")))
    ensures d.Perform? && IsSameDay(Member(p, "date"), now) ==>
              && d.call.startTime == (if Truthy(Member(p, "date")) then At(Member(p, "date")) else Now)
              && d.call.endTime == At(Undefined)
    ensures d.Perform? && !IsSameDay(Member(p, "date"), now) && Member(p, "date").DateString? ==>
              var eight := DateString(AtEightOClock(Member(p, "date").t));
              d.call.startTime == At(eight) && d.call.endTime == At(eight)
    ensures d.Perform? && Truthy(Member(p, "date")) && Moment(Member(p, "date"), now).None? ==>
              d.call.startTime == Now && d.call.endTime == At(Undefined) && d.next.date == Given(Null)
  {
    var project := Member(p, "project");
    match Property(project, "id")
    case Err(e) => Reply(Err(e))
    case Ok(projectId) =>
      var isSameDay := IsSameDay(Member(p, "date"), now);
      var date := StartDate(Member(p, "date"), now);
      var startTime := if Truthy(date) then At(date) else Now;
      var endTime := if isSameDay then At(Undefined) else if Truthy(date) then At(date) else At(Undefined);
      Perform(CreateRecordCall(userId, projectId, startTime, endTime, Str(""), Member(project, "lunchMinutes")),
              ToRecords(Given(date), Given(projectId)))
  }

  /** The checks `stopRecord` and `deleteRecord` make before calling the service. */
  function CurrentPeriodError(record: Value): (e: Option<Error>)
    ensures e.None? <==> Truthy(record) && Truthy(Member(record, "id"))
    ensures !Truthy(record) ==> e == Some(NoCurrentPeriod)
    ensures Truthy(record) && !Truthy(Member(record, "id")) ==> e == Some(NoCurrentPeriodId)
  {
    if !Truthy(record) then Some(NoCurrentPeriod)
    else if !Truthy(Member(record, "id")) then Some(NoCurrentPeriodId)
    else None
  }

  /** `stopRecord`: the record's end time is set to `NOW`; the payload's date is shown. */
  function DecideStopRecord(p: Value): (d: Decision)
    ensures d.Reply? || d.Perform?
    ensures d.Perform? <==> CurrentPeriodError(Member(p, "record")).None?
    ensures d.Reply? ==> d.result == Err(CurrentPeriodError(Member(p, "record")).value)
    ensures d.Perform? ==> && d.call == UpdateRecordCall(Member(Member(p, "record"), "id"), EndNow)
                           && d.next == ToRecords(Given(Member(p, "date")), UpdatedProject)
  {
    var record := Member(p, "record");
    match CurrentPeriodError(record)
    case Some(e) => Reply(Err(e))
    case None => Perform(UpdateRecordCall(Member(record, "id"), EndNow), ToRecords(Given(Member(p, "date")), UpdatedProject))
  }

  /** The first AssertUtils check of `editRecord` that fails, if any. */
  function RecordFormError(p: Value): (e: Option<Error>)
    ensures e.None? <==> && IsObject(Member(p, "record")) && IsUuid(Member(Member(p, "record"), "id"))
                         && IsDateString(Member(p, "startTime")) && IsDateString(Member(p, "endTime"))
                         && IsString(Member(p, "description")) && IsNumber(Member(p, "lunchMinutes"))
    ensures !IsObject(Member(p, "record")) ==> e == Some(InvalidArgument("record"))
    ensures IsObject(Member(p, "record")) && !IsUuid(Member(Member(p, "record"), "id")) ==> e == Some(InvalidArgument("record.id"))
    ensures e.Some? ==> e.value.InvalidArgument?
  {
    var record := Member(p, "record");
    if !IsObject(record) then Some(InvalidArgument("record"))
    else if !IsUuid(Member(record, "id")) then Some(InvalidArgument("record.id"))
    else if !IsDateString(Member(p, "startTime")) then Some(InvalidArgument("startTime"))
    else if !IsDateString(Member(p, "endTime")) then Some(InvalidArgument("endTime"))
    else if !IsString(Member(p, "description")) then Some(InvalidArgument("description"))
    else if !IsNumber(Member(p, "lunchMinutes")) then Some(InvalidArgument("lunchMinutes"))
    else None
  }

  /** `editRecord`: the four editable fields are overwritten in one update; the updated record is shown. */
  function DecideEditRecord(p: Value): (d: Decision)
    ensures d.Reply? || d.Perform?
    ensures d.Perform? <==> RecordFormError(p).None?
    ensures d.Reply? ==> d.result == Err(RecordFormError(p).value)
    ensures d.Perform? ==> && d.call.UpdateRecordCall?
                           && d.call.recordId == Member(Member(p, "record"), "id")
                           && d.call.recordPatch == RecordPatch(Some(At(Member(p, "startTime"))), Some(At(Member(p, "endTime"))),
                                                                Some(Member(p, "description")), Some(Member(p, "lunchMinutes")), None)
                           && d.next == ToRecords(UpdatedStart, UpdatedProject)
  {
    match RecordFormError(p)
    case Some(e) => Reply(Err(e))
    case None =>
      var patch := RecordPatch(Some(At(Member(p, "startTime"))), Some(At(Member(p, "endTime"))),
                               Some(Member(p, "description")), Some(Member(p, "lunchMinutes")), None);
      Perform(UpdateRecordCall(Member(Member(p, "record"), "id"), patch), ToRecords(UpdatedStart, UpdatedProject))
  }

  /**
   * `deleteRecord`: the record is flagged deleted; the date shown is the
   * updated record's start, but the project is the payload record's.
   */
  function DecideDeleteRecord(p: Value): (d: Decision)
    ensures d.Reply? || d.Perform?
    ensures d.Perform? <==> CurrentPeriodError(Member(p, "record")).None?
    ensures d.Reply? ==> d.result == Err(CurrentPeriodError(Member(p, "record")).value)
    ensures d.Perform? ==> && d.call == UpdateRecordCall(Member(Member(p, "record"), "id"), MarkDeleted)
                           && d.next == ToRecords(UpdatedStart, Given(Member(Member(p, "record"), "projectId")))
  {
    var record := Member(p, "record");
    match CurrentPeriodError(record)
    case Some(e) => Reply(Err(e))
    case None =>
      Perform(UpdateRecordCall(Member(record, "id"), MarkDeleted),
              ToRecords(UpdatedStart, Given(Member(record, "projectId"))))
  }

  /** `onRequest`: GET and unknown actions get `{view: undefined}`; every other action goes to its handler. */
  function Decide(request: Request, userId: Value, now: int): (d: Decision)
    ensures request.httpMethod == Get ==> d == Reply(Ok(NoView))
    ensures request.httpMethod != Get && ActionOf(Member(request.payload, "action")).None? ==> d == Reply(Ok(NoView))
    ensures request.httpMethod != Get && Member(request.payload, "action") == Str(ListProjects.Name())
            ==> d == Reply(Ok(ViewResult(Some(ListProjectsView), Undefined, None)))
    ensures d.Perform? ==> d.call.IsMutation()
    ensures d.Perform? ==> (d.next.ToProjectList? <==> d.call.CreateProjectCall? || d.call.UpdateProjectCall?)
    ensures d.Reply? && d.result.Ok? ==> d.result.value.project.None?
  {
    if request.httpMethod == Get then Reply(Ok(NoView))
    else
      var p := request.payload;
      match ActionOf(Member(p, "action"))
      case None => Reply(Ok(NoView))
      case Some(action) =>
        match action
        case ListProjects => Reply(Ok(ViewResult(Some(ListProjectsView), Undefined, None)))
        case ListRecords => DecideListRecords(p)
        case CreateProject => DecideCreateProject(p, userId)
        case EditProject => DecideEditProject(p)
        case StartNewRecord => DecideStartNewRecord(p, userId, now)
        case StopRecord => DecideStopRecord(p)
        case EditRecord => DecideEditRecord(p)
        case DeleteRecord => DecideDeleteRecord(p)
  }

  /*
   * What carrying out a decision means
   */

  /** The value a pick stands for, given the record the update returned (if any). */
  function Picked(pick: Pick, updated: Option<RecordRow>): Value {
    match pick
    case Given(v) => v
    case UpdatedStart => if updated.Some? then updated.value.startTime else Undefined
    case UpdatedProject => if updated.Some? then updated.value.projectId else Undefined
  }

  /** The row the decision's update returns on `before`, if it is an accepted record update. */
  function UpdatedBy(d: Decision, before: Store): Option<RecordRow> {
    if d.Perform? && d.call.UpdateRecordCall? then UpdatedRow(d.call, before) else None
  }

  /** The project id the follow-up of an accepted mutation fetches. */
  function FollowupProjectId(d: Decision, before: Store): Value
    requires d.Perform? && d.next.ToRecords?
  {
    Picked(d.next.projectId, UpdatedBy(d, before))
  }

  /** The service calls a decision makes, in order, on the store `before`. */
  function CallsMade(d: Decision, before: Store): (calls: seq<Call>)
    ensures d.Reply? <==> calls == []
    ensures d.ShowRecords? ==> calls == [FetchProjectCall(d.projectId)]
    ensures d.Perform? ==> calls[0] == d.call && forall i | 1 <= i < |calls| :: calls[i].FetchProjectCall?
    ensures |calls| <= 2
  {
    match d
    case Reply(_) => []
    case ShowRecords(_, projectId) => [FetchProjectCall(projectId)]
    case Perform(call, next) =>
      if Refused(call, before) || next.ToProjectList? then [call]
      else [call, FetchProjectCall(FollowupProjectId(d, before))]
  }

  /** The result a decision produces on the store `before`. */
  function Answer(d: Decision, before: Store): (r: Outcome<ViewResult>)
    ensures d.Reply? ==> r == d.result
    ensures d.Perform? && Refused(d.call, before) ==> r == Err(UnknownRow)
    ensures !d.Reply? && r.Ok? && r.value.project.Some? ==>
              && r.value.project.value.Valid()
              && exists row | row in before.projects.Values :: ProjectOf(row) == r.value.project.value
  {
    match d
    case Reply(result) => result
    case ShowRecords(date, projectId) => RecordsReply(date, Fetched(Find(before.projects, projectId)))
    case Perform(call, next) =>
      if Refused(call, before) then Err(UnknownRow)
      else match next
        case ToProjectList => Ok(ViewResult(Some(ListProjectsView), Undefined, None))
        case ToRecords(date, _) =>
          var pid := FollowupProjectId(d, before);
          RecordsReply(Picked(date, UpdatedBy(d, before)), Fetched(Find(before.projects, pid)))
  }

  /** What a decision does to the store: only its mutation changes anything. */
  ghost predicate Effect(d: Decision, before: Store, after: Store) {
    if d.Perform? && d.call.IsMutation() then Applied(d.call, before, after) else after == before
  }

  /** The service's log and the result after carrying out `d` from `before`. */
  ghost predicate Realized(d: Decision, before: Store, logBefore: seq<Call>, logAfter: seq<Call>, r: Outcome<ViewResult>) {
    logAfter == logBefore + CallsMade(d, before) && r == Answer(d, before)
  }

  /*
   * Properties of the decisions
   */

  /** A request makes at most one mutating call, and makes it before anything else. */
  lemma {:induction false} AtMostOneMutation(request: Request, userId: Value, now: int, before: Store)
    ensures var d := Decide(request, userId, now);
            var calls := CallsMade(d, before);
            && (forall i | 1 <= i < |calls| :: !calls[i].IsMutation())
            && (|calls| > 0 && calls[0].IsMutation() <==> d.Perform?)
  {
    var d := Decide(request, userId, now);
    var calls := CallsMade(d, before);
    if d.Perform? {
      assert calls[0] == d.call;
    }
  }

  /** A record started on another day starts at 08:00 of that very day, and that day is shown. */
  lemma {:induction false} StartOnAnotherDayKeepsTheDay(p: Value, userId: Value, now: int)
    requires Member(p, "project") != Undefined && Member(p, "project") != Null
    requires Member(p, "date").DateString? && !IsSameDay(Member(p, "date"), now)
    ensures var d := DecideStartNewRecord(p, userId, now);
            var t := Member(p, "date").t;
            && d.call.startTime.At? && d.call.startTime.v.DateString?
            && SameDay(d.call.startTime.v.t, t)
            && d.call.startTime.v.t - StartOfDay(t) == 8 * MsPerHour
            && d.next.date == Given(d.call.startTime.v)
  {
    AtEightOClockSameDay(Member(p, "date").t);
  }

  /** Every request the controller rejects is rejected before any service call. */
  lemma {:induction false} RejectionMakesNoCall(request: Request, userId: Value, now: int, before: Store)
    requires Decide(request, userId, now).Reply?
    ensures CallsMade(Decide(request, userId, now), before) == []
    ensures Answer(Decide(request, userId, now), before).Err? ==>
              Member(request.payload, "action") in {Str(CreateProject.Name()), Str(EditProject.Name()), Str(StartNewRecord.Name()),
                                                    Str(StopRecord.Name()), Str(EditRecord.Name()), Str(DeleteRecord.Name())}
  {
    var d := Decide(request, userId, now);
    var a := ActionOf(Member(request.payload, "action"));
    if Answer(d, before).Err? {
      assert a.Some? && a.value != ListProjects && a.value != ListRecords;
    }
  }

  /** `stopRecord` shows the date of the request, and the project the stopped record belongs to. */
  lemma {:induction false} StopRecordShowsPayloadDate(p: Value, before: Store)
    requires CurrentPeriodError(Member(p, "record")).None?
    requires Answer(DecideStopRecord(p), before).Ok?
    ensures var id := Member(Member(p, "record"), "id");
            var v := Answer(DecideStopRecord(p), before).value;
            && id.Str? && id.s in before.records
            && v.date == Member(p, "date")
            && (v.project.Some? ==> var pid := before.records[id.s].projectId;
                                    pid.Str? && pid.s in before.projects && v.project.value == ProjectOf(before.projects[pid.s]))
  {
    var d := DecideStopRecord(p);
    assert !Refused(d.call, before);
  }

  /** `editRecord` shows the day the record now starts on: the start time of the request. */
  lemma {:induction false} EditRecordShowsNewStart(p: Value, before: Store)
    requires RecordFormError(p).None?
    requires Answer(DecideEditRecord(p), before).Ok?
    ensures var id := Member(Member(p, "record"), "id");
            var v := Answer(DecideEditRecord(p), before).value;
            && id.s in before.records
            && v.date == Member(p, "startTime")
            && (v.project.Some? ==> var pid := before.records[id.s].projectId;
                                    pid.Str? && pid.s in before.projects && v.project.value == ProjectOf(before.projects[pid.s]))
  {
    var d := DecideEditRecord(p);
    assert !Refused(d.call, before);
    var row := UpdatedRow(d.call, before).value;
    assert row.startTime == Resolve(At(Member(p, "startTime")), before.clock);
  }

  /**
   * `deleteRecord` shows the day the deleted record started on (the deletion
   * leaves it unchanged) and fetches the project named by the request's record,
   * which need not be the stored record's project.
   */
  lemma {:induction false} DeleteRecordShowsStoredStart(p: Value, before: Store)
    requires CurrentPeriodError(Member(p, "record")).None?
    requires !Refused(DecideDeleteRecord(p).call, before)
    ensures var id := Member(Member(p, "record"), "id");
            var d := DecideDeleteRecord(p);
            && CallsMade(d, before) == [d.call, FetchProjectCall(Member(Member(p, "record"), "projectId"))]
            && (Answer(d, before).Ok? ==> Answer(d, before).value.date == before.records[id.s].startTime)
  {
    var d := DecideDeleteRecord(p);
    var row := UpdatedRow(d.call, before).value;
    assert row.startTime == before.records[Member(Member(p, "record"), "id").s].startTime;
  }

  /*
   * What the controller's queries answer, stated against the store
   */

  /** `latest`, when there is one, is a valid stored project of the user. */
  predicate LatestOfUser(latest: Option<WorkProject.Project>, userId: Value, store: Store) {
    latest.Some? ==>
      && latest.value.Valid() && latest.value.userId == userId
      && exists row | row in store.projects.Values :: ProjectOf(row) == latest.value
  }

  /** `projects` are the stored projects under `keys`, in that order. */
  predicate ProjectsAt(projects: seq<WorkProject.Project>, keys: seq<string>, store: Store) {
    && |projects| == |keys|
    && forall i | 0 <= i < |keys| :: keys[i] in store.projects && projects[i] == ProjectOf(store.projects[keys[i]])
  }

  /** `records` are the stored records under `keys`, in that order. */
  predicate RecordsAt(records: seq<WorkRecord.Record>, keys: seq<string>, store: Store) {
    && |records| == |keys|
    && forall i | 0 <= i < |keys| :: keys[i] in store.records && records[i] == RecordOf(store.records[keys[i]])
  }

  /** `projects` holds exactly the user's stored projects, each valid and each once. */
  ghost predicate ProjectsOfUser(projects: seq<WorkProject.Project>, userId: Value, store: Store) {
    && (forall project | project in projects ::
          && project.Valid() && project.userId == userId
          && exists row | row in store.projects.Values :: ProjectOf(row) == project)
    && (forall k | k in store.projects && store.projects[k].userId == userId ::
          ProjectOf(store.projects[k]) in projects)
    && exists keys :: Enumerates(keys, UserProjectKeys(store.projects, userId)) && ProjectsAt(projects, keys, store)
  }

  /** The keys of the records `getRecords(projectId, date)` searches for: the user's undeleted records of that day. */
  function DayRecordKeys(store: Store, userId: Value, projectId: Value, date: Value, now: int): set<string> {
    MatchingRecordKeys(store.records, userId, projectId, DayRange(date, now).0, DayRange(date, now).1)
  }

  /** Whether a stored record is one of `userId`'s undeleted records of `projectId` starting on the day of `date`. */
  predicate OnTheDay(row: RecordRow, userId: Value, projectId: Value, date: Value, now: int) {
    && row.userId == userId && row.projectId == projectId && !row.deleted
    && row.startTime.DateString? && Moment(date, now).Some?
    && SameDay(Moment(date, now).value, row.startTime.t)
  }

  /** The day's search finds exactly the records on that day; an unreadable date finds none. */
  lemma {:induction false} DayRecordKeysAreTheDay(store: Store, userId: Value, projectId: Value, date: Value, now: int)
    ensures forall k | k in store.records ::
              k in DayRecordKeys(store, userId, projectId, date, now) <==> OnTheDay(store.records[k], userId, projectId, date, now)
    ensures DayRecordKeys(store, userId, projectId, date, now) <= store.records.Keys
  {
    forall k | k in store.records
      ensures k in DayRecordKeys(store, userId, projectId, date, now) <==> OnTheDay(store.records[k], userId, projectId, date, now)
    {
      MatchesTheDay(store.records[k], userId, projectId, date, now);
    }
  }

  /** A record matches the search over the bounds of a day exactly when it is on that day. */
  lemma {:induction false} MatchesTheDay(row: RecordRow, userId: Value, projectId: Value, date: Value, now: int)
    ensures Matches(row, userId, projectId, DayRange(date, now).0, DayRange(date, now).1)
            <==> OnTheDay(row, userId, projectId, date, now)
  {
    var (from, to) := DayRange(date, now);
    if Moment(date, now).Some? && row.startTime.DateString? {
      assert from.t <= row.startTime.t <= to.t <==> SameDay(Moment(date, now).value, row.startTime.t);
    }
  }

  /**
   * `records` holds exactly the user's undeleted stored records of `projectId`
   * that start on the day of `date`, each valid.
   */
  ghost predicate RecordsOfDay(records: seq<WorkRecord.Record>, userId: Value, projectId: Value, date: Value, now: int,
                               store: Store) {
    && DayRecordsSound(records, userId, projectId, date, now, store)
    && DayRecordsComplete(records, userId, projectId, date, now, store)
    && exists keys :: Enumerates(keys, DayRecordKeys(store, userId, projectId, date, now)) && RecordsAt(records, keys, store)
  }

  /** Each record is valid and comes from one of the user's undeleted stored records of `projectId` on the day of `date`. */
  predicate DayRecordsSound(records: seq<WorkRecord.Record>, userId: Value, projectId: Value, date: Value, now: int,
                            store: Store) {
    forall rec | rec in records ::
      && rec.Valid() && rec.userId == userId && rec.projectId == projectId
      && rec.startTime.DateString? && Moment(date, now).Some?
      && SameDay(Moment(date, now).value, rec.startTime.t)
      && exists row | row in store.records.Values :: OnTheDay(row, userId, projectId, date, now) && RecordOf(row) == rec
  }

  /** Every one of the user's undeleted stored records of `projectId` on the day of `date` is among `records`. */
  predicate DayRecordsComplete(records: seq<WorkRecord.Record>, userId: Value, projectId: Value, date: Value, now: int,
                               store: Store) {
    forall k | k in store.records && OnTheDay(store.records[k], userId, projectId, date, now) ::
      RecordOf(store.records[k]) in records
  }

  /** Converting the rows a project search answers, one per key of the user's projects, lists exactly those projects. */
  lemma {:induction false} ConvertedProjectsOfUser(rows: seq<ProjectRow>, keys: seq<string>,
                                                   projects: seq<WorkProject.Project>, userId: Value, store: Store)
    requires Enumerates(keys, UserProjectKeys(store.projects, userId))
    requires |rows| == |keys| && forall i | 0 <= i < |keys| :: keys[i] in store.projects && rows[i] == store.projects[keys[i]]
    requires ConvertAll(rows, ProjectFromRow) == Ok(projects)
    ensures ProjectsOfUser(projects, userId, store)
  {
    forall i | 0 <= i < |keys|
      ensures projects[i] == ProjectOf(store.projects[keys[i]]) && projects[i].Valid()
    {
      assert ProjectFromRow(rows[i]) == Ok(projects[i]);
    }
    assert Enumerates(keys, UserProjectKeys(store.projects, userId)) && ProjectsAt(projects, keys, store);
    forall k | k in store.projects && store.projects[k].userId == userId
      ensures ProjectOf(store.projects[k]) in projects
    {
      assert k in UserProjectKeys(store.projects, userId);
      var i :| 0 <= i < |keys| && keys[i] == k;
      assert projects[i] == ProjectOf(store.projects[k]);
    }
    forall project | project in projects
      ensures project.Valid() && project.userId == userId
      ensures exists row | row in store.projects.Values :: ProjectOf(row) == project
    {
      var i :| 0 <= i < |projects| && projects[i] == project;
      assert keys[i] in UserProjectKeys(store.projects, userId);
      assert store.projects[keys[i]] in store.projects.Values;
    }
  }

  /** Converting the rows a records search answers, one per key of the day's records, lists exactly those records. */
  lemma {:induction false} ConvertedRecordsOfDay(rows: seq<RecordRow>, keys: seq<string>, records: seq<WorkRecord.Record>,
                                                 userId: Value, projectId: Value, date: Value, now: int, store: Store)
    requires Enumerates(keys, DayRecordKeys(store, userId, projectId, date, now))
    requires |rows| == |keys| && forall i | 0 <= i < |keys| :: keys[i] in store.records && rows[i] == store.records[keys[i]]
    requires ConvertAll(rows, RecordFromRow) == Ok(records)
    ensures RecordsOfDay(records, userId, projectId, date, now, store)
  {
    ConvertedRecordsAt(rows, keys, records, store);
    ListedRecordsSound(keys, records, userId, projectId, date, now, store);
    ListedRecordsComplete(keys, records, userId, projectId, date, now, store);
    assert Enumerates(keys, DayRecordKeys(store, userId, projectId, date, now)) && RecordsAt(records, keys, store);
  }

  /** The records stored under a listing of the day's keys are all on that day. */
  lemma {:induction false} ListedRecordsSound(keys: seq<string>, records: seq<WorkRecord.Record>, userId: Value,
                                              projectId: Value, date: Value, now: int, store: Store)
    requires Enumerates(keys, DayRecordKeys(store, userId, projectId, date, now)) && RecordsAt(records, keys, store)
    requires forall rec | rec in records :: rec.Valid()
    ensures DayRecordsSound(records, userId, projectId, date, now, store)
  {
    DayRecordKeysAreTheDay(store, userId, projectId, date, now);
    forall rec | rec in records
      ensures && rec.userId == userId && rec.projectId == projectId
              && rec.startTime.DateString? && Moment(date, now).Some?
              && SameDay(Moment(date, now).value, rec.startTime.t)
      ensures exists row | row in store.records.Values :: OnTheDay(row, userId, projectId, date, now) && RecordOf(row) == rec
    {
      var i :| 0 <= i < |records| && records[i] == rec;
      var row := store.records[keys[i]];
      assert keys[i] in DayRecordKeys(store, userId, projectId, date, now);
      assert OnTheDay(row, userId, projectId, date, now);
      assert row in store.records.Values;
    }
  }

  /** A listing of the day's keys leaves none of the day's records out. */
  lemma {:induction false} ListedRecordsComplete(keys: seq<string>, records: seq<WorkRecord.Record>, userId: Value,
                                                 projectId: Value, date: Value, now: int, store: Store)
    requires Enumerates(keys, DayRecordKeys(store, userId, projectId, date, now)) && RecordsAt(records, keys, store)
    ensures DayRecordsComplete(records, userId, projectId, date, now, store)
  {
    DayRecordKeysAreTheDay(store, userId, projectId, date, now);
    forall k | k in store.records && OnTheDay(store.records[k], userId, projectId, date, now)
      ensures RecordOf(store.records[k]) in records
    {
      var i :| 0 <= i < |keys| && keys[i] == k;
      assert records[i] == RecordOf(store.records[k]);
    }
  }

  /** The converted rows are the records stored under `keys`, each valid. */
  lemma {:induction false} ConvertedRecordsAt(rows: seq<RecordRow>, keys: seq<string>, records: seq<WorkRecord.Record>,
                                              store: Store)
    requires |rows| == |keys| && forall i | 0 <= i < |keys| :: keys[i] in store.records && rows[i] == store.records[keys[i]]
    requires ConvertAll(rows, RecordFromRow) == Ok(records)
    ensures RecordsAt(records, keys, store)
    ensures forall rec | rec in records :: rec.Valid()
  {
    forall i | 0 <= i < |keys|
      ensures records[i] == RecordOf(store.records[keys[i]]) && records[i].Valid()
    {
      assert RecordFromRow(rows[i]) == Ok(records[i]);
    }
  }

  /** Every one of the user's stored projects makes a valid BeWorkProject, so `getProjects` does not throw. */
  predicate UserProjectsConvert(store: Store, userId: Value) {
    forall k | k in store.projects && store.projects[k].userId == userId :: ProjectOf(store.projects[k]).Valid()
  }

  /**
   * `getRecords(projectId, date)` does not throw: the project id is a UUID and
   * each of the day's records makes a valid BeWorkRecord.
   */
  predicate DayRecordsConvert(store: Store, userId: Value, projectId: Value, date: Value, now: int) {
    && IsUuid(projectId)
    && forall k | k in store.records && OnTheDay(store.records[k], userId, projectId, date, now) ::
         RecordOf(store.records[k]).Valid()
  }

  /** The rows a project search answers all convert exactly when every stored project of the user is valid. */
  lemma {:induction false} ProjectRowsConvert(rows: seq<ProjectRow>, keys: seq<string>, userId: Value, store: Store)
    requires Enumerates(keys, UserProjectKeys(store.projects, userId))
    requires |rows| == |keys| && forall i | 0 <= i < |keys| :: keys[i] in store.projects && rows[i] == store.projects[keys[i]]
    ensures ConvertAll(rows, ProjectFromRow).Ok? <==> UserProjectsConvert(store, userId)
  {
    if ConvertAll(rows, ProjectFromRow).Ok? {
      forall k | k in store.projects && store.projects[k].userId == userId
        ensures ProjectOf(store.projects[k]).Valid()
      {
        assert k in UserProjectKeys(store.projects, userId);
        var i :| 0 <= i < |keys| && keys[i] == k;
        assert ProjectFromRow(rows[i]).Ok?;
      }
    } else {
      var i :| 0 <= i < |rows| && !ProjectFromRow(rows[i]).Ok?;
      assert keys[i] in UserProjectKeys(store.projects, userId);
    }
  }

  /** The rows a records search answers all convert exactly when every record of the day is valid. */
  lemma {:induction false} RecordRowsConvert(rows: seq<RecordRow>, keys: seq<string>, userId: Value, projectId: Value,
                                             date: Value, now: int, store: Store)
    requires IsUuid(projectId)
    requires Enumerates(keys, DayRecordKeys(store, userId, projectId, date, now))
    requires |rows| == |keys| && forall i | 0 <= i < |keys| :: keys[i] in store.records && rows[i] == store.records[keys[i]]
    ensures ConvertAll(rows, RecordFromRow).Ok? <==> DayRecordsConvert(store, userId, projectId, date, now)
  {
    DayRecordKeysAreTheDay(store, userId, projectId, date, now);
    if ConvertAll(rows, RecordFromRow).Ok? {
      forall k | k in store.records && OnTheDay(store.records[k], userId, projectId, date, now)
        ensures RecordOf(store.records[k]).Valid()
      {
        var i :| 0 <= i < |keys| && keys[i] == k;
        assert RecordFromRow(rows[i]).Ok?;
      }
    } else {
      var i :| 0 <= i < |rows| && !RecordFromRow(rows[i]).Ok?;
      assert keys[i] in DayRecordKeys(store, userId, projectId, date, now);
    }
  }

  /**
   * A project `createProject` adds for a user whose stored projects all
   * convert keeps them converting, so `getProjects` still succeeds, and the
   * list it answers holds the new project.
   */
  lemma {:induction false} CreatedProjectListed(p: Value, userId: Value, before: Store, after: Store)
    requires DecideCreateProject(p, userId).Perform?
    requires Effect(DecideCreateProject(p, userId), before, after)
    requires IsUuid(userId) && |before.projects| < UuidCount
    requires UserProjectsConvert(before, userId)
    ensures UserProjectsConvert(after, userId)
    ensures |UserProjectKeys(after.projects, userId)| == |UserProjectKeys(before.projects, userId)| + 1
    ensures exists k :: && k !in before.projects && k in UserProjectKeys(after.projects, userId)
                        && ProjectOf(after.projects[k])
                           == WorkProject.Project(Str(k), userId, Member(p, "clientId"), Member(p, "label"), Member(p, "lunchMinutes"))
                        && forall projects | ProjectsOfUser(projects, userId, after) :: ProjectOf(after.projects[k]) in projects
  {
    var title, clientId, lunchMinutes := Member(p, "label"), Member(p, "clientId"), Member(p, "lunchMinutes");
    assert DecideCreateProject(p, userId).call == CreateProjectCall(userId, title, clientId, lunchMinutes);
    CreateProjectCallListed(userId, title, clientId, lunchMinutes, before, after);
  }

  /** `CreatedProjectListed` for the service call itself, on a form that passes its checks. */
  lemma {:induction false} CreateProjectCallListed(userId: Value, title: Value, clientId: Value, lunchMinutes: Value,
                                                   before: Store, after: Store)
    requires ProjectFormError(title, clientId, lunchMinutes).None?
    requires Applied(CreateProjectCall(userId, title, clientId, lunchMinutes), before, after)
    requires IsUuid(userId) && |before.projects| < UuidCount
    requires UserProjectsConvert(before, userId)
    ensures UserProjectsConvert(after, userId)
    ensures |UserProjectKeys(after.projects, userId)| == |UserProjectKeys(before.projects, userId)| + 1
    ensures exists k :: && k !in before.projects && k in UserProjectKeys(after.projects, userId)
                        && ProjectOf(after.projects[k]) == WorkProject.Project(Str(k), userId, clientId, title, lunchMinutes)
                        && forall projects | ProjectsOfUser(projects, userId, after) :: ProjectOf(after.projects[k]) in projects
  {
    var k :| k !in before.projects && (|before.projects| < UuidCount ==> IsUuidString(k))
             && after == before.(projects := before.projects[k := ProjectRow(Str(k), userId, clientId, title, lunchMinutes)]);
    var row := ProjectRow(Str(k), userId, clientId, title, lunchMinutes);
    assert ProjectOf(row).Valid();
    AddedProject(before, after, k, row, userId);
    forall projects | ProjectsOfUser(projects, userId, after)
      ensures ProjectOf(after.projects[k]) in projects
    {
      StoredProjectListed(projects, userId, after, k);
    }
  }

  /** Adding a valid project of the user under a new key adds one key to theirs and keeps them all valid. */
  lemma {:induction false} AddedProject(before: Store, after: Store, k: string, row: ProjectRow, userId: Value)
    requires k !in before.projects && after.projects == before.projects[k := row]
    requires row.userId == userId && ProjectOf(row).Valid()
    ensures UserProjectKeys(after.projects, userId) == UserProjectKeys(before.projects, userId) + {k}
    ensures |UserProjectKeys(after.projects, userId)| == |UserProjectKeys(before.projects, userId)| + 1
    ensures UserProjectsConvert(before, userId) ==> UserProjectsConvert(after, userId)
  {
    assert UserProjectKeys(after.projects, userId) == UserProjectKeys(before.projects, userId) + {k};
  }

  /** Every stored project of the user is in a list of the user's projects. */
  lemma {:induction false} StoredProjectListed(projects: seq<WorkProject.Project>, userId: Value, store: Store, k: string)
    requires ProjectsOfUser(projects, userId, store)
    requires k in store.projects && store.projects[k].userId == userId
    ensures ProjectOf(store.projects[k]) in projects
  {
  }

  /** A record `startNewRecord` adds gets a UUID id, which `editRecord`'s `record.id` check accepts. */
  lemma {:induction false} CreatedRecordHasUuid(p: Value, userId: Value, now: int, before: Store, after: Store)
    requires DecideStartNewRecord(p, userId, now).Perform?
    requires Effect(DecideStartNewRecord(p, userId, now), before, after)
    requires |before.records| < UuidCount
    ensures exists k :: k !in before.records && k in after.records && after.records[k].id == Str(k)
                        && IsUuid(after.records[k].id)
  {
    var d := DecideStartNewRecord(p, userId, now);
    var k :| k !in before.records && (|before.records| < UuidCount ==> IsUuidString(k))
             && after == before.(
                  records := before.records[k := RecordRow(Str(k), d.call.userId, d.call.projectId,
                                                           Resolve(d.call.startTime, before.clock),
                                                           Resolve(d.call.endTime, before.clock), d.call.description,
                                                           d.call.lunchMinutes, false)],
                  latest := if d.call.projectId.Str? then before.latest[d.call.userId := d.call.projectId.s] else before.latest);
    assert after.records[k].id == Str(k);
  }

  /** The user's projects are listed once each: the list is as long as the user has stored projects. */
  lemma {:induction false} ProjectsOfUserCount(projects: seq<WorkProject.Project>, userId: Value, store: Store)
    requires ProjectsOfUser(projects, userId, store)
    ensures |projects| == |UserProjectKeys(store.projects, userId)|
  {
    var keys :| Enumerates(keys, UserProjectKeys(store.projects, userId)) && ProjectsAt(projects, keys, store);
    EnumerationSize(keys, UserProjectKeys(store.projects, userId));
  }

  /** The day's records are listed once each: the list is as long as the day has stored records. */
  lemma {:induction false} RecordsOfDayCount(records: seq<WorkRecord.Record>, userId: Value, projectId: Value, date: Value,
                                             now: int, store: Store)
    requires RecordsOfDay(records, userId, projectId, date, now, store)
    ensures |records| == |DayRecordKeys(store, userId, projectId, date, now)|
  {
    var keys :| Enumerates(keys, DayRecordKeys(store, userId, projectId, date, now)) && RecordsAt(records, keys, store);
    EnumerationSize(keys, DayRecordKeys(store, userId, projectId, date, now));
  }

  /*
   * The controller object
   */

  class Controller {
    const service: Service
    var session: Option<Session>
    var eventManager: EventManager?

    constructor (service: Service)
      ensures this.service == service && session == None && eventManager == null
    {
      this.service := service;
      session := None;
      eventManager := null;
    }

    /** `setSession`: the session NorJS binds replaces the current one. */
    method SetSession(s: Option<Session>)
      modifies this
      ensures session == s && eventManager == old(eventManager)
    {
      if s != session {
        session := s;
      }
    }

    /** `setEventManager`: the event manager NorJS binds replaces the current one. */
    method SetEventManager(m: EventManager?)
      modifies this
      ensures eventManager == m && session == old(session)
    {
      if eventManager != m {
        eventManager := m;
      }
    }

    /** `destroy`: the session and the event manager are dropped. */
    method Destroy()
      modifies this
      ensures session == None && eventManager == null
    {
      session := None;
      eventManager := null;
    }

    /** `isAuthenticated()`: false without a session. */
    function IsAuthenticated(): (b: bool)
      reads this
      ensures b ==> HasSession()
      ensures session.Some? ==> b == session.value.authenticated
    {
      if session.Some? then session.value.authenticated else false
    }

    /** `hasSession()`. */
    function HasSession(): bool
      reads this
    {
      session.Some?
    }

    /** `getUserId()`: `session.user.id`, undefined without a session. */
    function UserId(): (id: Value)
      reads this
      ensures !HasSession() ==> id == Undefined
      ensures session.Some? ==> id == Member(session.value.user, "id")
    {
      if session.Some? then Member(session.value.user, "id") else Undefined
    }

    /** `getProject(projectId)`: the stored project as a BeWorkProject, undefined if there is none. */
    method GetProject(projectId: Value) returns (r: Outcome<Option<WorkProject.Project>>)
      modifies service
      ensures service.log == old(service.log) + [FetchProjectCall(projectId)]
      ensures service.State() == old(service.State())
      ensures r == Fetched(service.FindProject(projectId))
    {
      var row := service.FetchProject(projectId);
      if row.None? {
        return Ok(None);
      }
      var project :- ProjectFromRow(row.value);
      return Ok(Some(project));
    }

    /** `getLatestProject()`: the user's latest project, which is one of their own stored projects. */
    method GetLatestProject() returns (r: Outcome<Option<WorkProject.Project>>)
      modifies service
      ensures service.log == old(service.log) + [LatestProjectCall(UserId())]
      ensures service.State() == old(service.State())
      ensures r == Fetched(LatestRow(service.State(), UserId()))
      ensures r.Ok? ==> LatestOfUser(r.value, UserId(), service.State())
    {
      var row := service.GetUsersLatestProject(UserId());
      if row.None? {
        return Ok(None);
      }
      var project :- ProjectFromRow(row.value);
      return Ok(Some(project));
    }

    /** `getProjects()`: all of the user's stored projects, each as a BeWorkProject. */
    method GetProjects() returns (r: Outcome<seq<WorkProject.Project>>)
      modifies service
      ensures service.log == old(service.log) + [SearchProjectsCall(UserId())]
      ensures service.State() == old(service.State())
      ensures r.Ok? <==> UserProjectsConvert(service.State(), UserId())
      ensures r.Ok? ==> ProjectsOfUser(r.value, UserId(), service.State())
      ensures r.Err? ==> r.error.InvalidArgument?
    {
      var rows, keys := service.SearchProjects(UserId());
      r := ConvertAll(rows, ProjectFromRow);
      ProjectRowsConvert(rows, keys, UserId(), service.State());
      if r.Ok? {
        ConvertedProjectsOfUser(rows, keys, r.value, UserId(), service.State());
      }
    }

    /**
     * `getRecords(projectId, date)`: the user's undeleted records of that
     * project that start on the day of `date`, each as a BeWorkRecord.
     */
    method GetRecords(projectId: Value, date: Value, now: int) returns (r: Outcome<seq<WorkRecord.Record>>)
      modifies service
      ensures !IsUuid(projectId) ==> r == Err(InvalidArgument("projectId")) && service.log == old(service.log)
      ensures IsUuid(projectId) ==>
                service.log == old(service.log) + [SearchRecordsCall(UserId(), projectId, DayRange(date, now).0, DayRange(date, now).1)]
      ensures service.State() == old(service.State())
      ensures r.Ok? <==> DayRecordsConvert(service.State(), UserId(), projectId, date, now)
      ensures r.Ok? ==> RecordsOfDay(r.value, UserId(), projectId, date, now, service.State())
      ensures r.Err? ==> r.error.InvalidArgument?
    {
      if !IsUuid(projectId) {
        return Err(InvalidArgument("projectId"));
      }
      var (from, to) := DayRange(date, now);
      var rows, keys := service.SearchRecords(UserId(), projectId, from, to);
      r := ConvertAll(rows, RecordFromRow);
      RecordRowsConvert(rows, keys, UserId(), projectId, date, now, service.State());
      if r.Ok? {
        ConvertedRecordsOfDay(rows, keys, r.value, UserId(), projectId, date, now, service.State());
      }
    }

    /*
     * The request handlers
     */

    method CreateProjectAction(request: Request) returns (r: Outcome<ViewResult>)
      modifies service
      ensures Realized(DecideCreateProject(request.payload, UserId()), old(service.State()), old(service.log), service.log, r)
      ensures Effect(DecideCreateProject(request.payload, UserId()), old(service.State()), service.State())
    {
      var title := Member(request.payload, "label");
      var clientId := Member(request.payload, "clientId");
      var lunchMinutes := Member(request.payload, "lunchMinutes");
      var invalid := ProjectFormError(title, clientId, lunchMinutes);
      if invalid.Some? {
        return Err(invalid.value);
      }
      var row := service.CreateProject(UserId(), title, clientId, lunchMinutes);
      assert row.id.s !in old(service.projects);
      return Ok(ViewResult(Some(ListProjectsView), Undefined, None));
    }

    method EditProjectAction(request: Request) returns (r: Outcome<ViewResult>)
      modifies service
      ensures Realized(DecideEditProject(request.payload), old(service.State()), old(service.log), service.log, r)
      ensures Effect(DecideEditProject(request.payload), old(service.State()), service.State())
    {
      var project := Member(request.payload, "project");
      var title := Member(request.payload, "label");
      var clientId := Member(request.payload, "clientId");
      var lunchMinutes := Member(request.payload, "lunchMinutes");
      var invalid := ProjectFormError(title, clientId, lunchMinutes);
      if invalid.Some? {
        return Err(invalid.value);
      }
      var projectId :- Property(project, "id");
      var updated :- service.UpdateProject(projectId, ProjectPatch(title, clientId, lunchMinutes));
      return Ok(ViewResult(Some(ListProjectsView), Undefined, None));
    }

    method StartNewRecordAction(request: Request, now: int) returns (r: Outcome<ViewResult>)
      modifies service
      ensures Realized(DecideStartNewRecord(request.payload, UserId(), now), old(service.State()), old(service.log), service.log, r)
      ensures Effect(DecideStartNewRecord(request.payload, UserId(), now), old(service.State()), service.State())
    {
      var date := Member(request.payload, "date");
      var project := Member(request.payload, "project");
      var userId := UserId();
      var projectId :- Property(project, "id");
      var description := Str("");
      var lunchMinutes := Member(project, "lunchMinutes");
      var isSameDay := IsSameDay(date, now);
      if !isSameDay {
        date := if Truthy(date) then IsoString(if Moment(date, now).Some? then Some(AtEightOClock(Moment(date, now).value)) else None)
                else Undefined;
      }
      var row := service.CreateRecord(
        userId, projectId,
        if Truthy(date) then At(date) else Now,
        if isSameDay then At(Undefined) else if Truthy(date) then At(date) else At(Undefined),
        description, lunchMinutes);
      assert row.id.s !in old(service.records);
      var fetched := GetProject(projectId);
      return RecordsReply(date, fetched);
    }

    method StopRecordAction(request: Request) returns (r: Outcome<ViewResult>)
      modifies service
      ensures Realized(DecideStopRecord(request.payload), old(service.State()), old(service.log), service.log, r)
      ensures Effect(DecideStopRecord(request.payload), old(service.State()), service.State())
    {
      var date := Member(request.payload, "date");
      var record := Member(request.payload, "record");
      if !Truthy(record) {
        return Err(NoCurrentPeriod);
      }
      if !Truthy(Member(record, "id")) {
        return Err(NoCurrentPeriodId);
      }
      var updated :- service.UpdateRecord(Member(record, "id"), EndNow);
      var fetched := GetProject(updated.projectId);
      return RecordsReply(date, fetched);
    }

    method EditRecordAction(request: Request) returns (r: Outcome<ViewResult>)
      modifies service
      ensures Realized(DecideEditRecord(request.payload), old(service.State()), old(service.log), service.log, r)
      ensures Effect(DecideEditRecord(request.payload), old(service.State()), service.State())
    {
      var record := Member(request.payload, "record");
      if !IsObject(record) {
        return Err(InvalidArgument("record"));
      }
      if !IsUuid(Member(record, "id")) {
        return Err(InvalidArgument("record.id"));
      }
      var startTime := Member(request.payload, "startTime");
      var endTime := Member(request.payload, "endTime");
      var description := Member(request.payload, "description");
      var lunchMinutes := Member(request.payload, "lunchMinutes");
      if !IsDateString(startTime) {
        return Err(InvalidArgument("startTime"));
      }
      if !IsDateString(endTime) {
        return Err(InvalidArgument("endTime"));
      }
      if !IsString(description) {
        return Err(InvalidArgument("description"));
      }
      if !IsNumber(lunchMinutes) {
        return Err(InvalidArgument("lunchMinutes"));
      }
      var patch := RecordPatch(Some(At(startTime)), Some(At(endTime)), Some(description), Some(lunchMinutes), None);
      var updated :- service.UpdateRecord(Member(record, "id"), patch);
      var fetched := GetProject(updated.projectId);
      return RecordsReply(updated.startTime, fetched);
    }

    method DeleteRecordAction(request: Request) returns (r: Outcome<ViewResult>)
      modifies service
      ensures Realized(DecideDeleteRecord(request.payload), old(service.State()), old(service.log), service.log, r)
      ensures Effect(DecideDeleteRecord(request.payload), old(service.State()), service.State())
    {
      var record := Member(request.payload, "record");
      if !Truthy(record) {
        return Err(NoCurrentPeriod);
      }
      if !Truthy(Member(record, "id")) {
        return Err(NoCurrentPeriodId);
      }
      var updated :- service.UpdateRecord(Member(record, "id"), MarkDeleted);
      var fetched := GetProject(Member(record, "projectId"));
      return RecordsReply(updated.startTime, fetched);
    }

    /** `onRequest(request)`: carries out what `Decide` says for the session's user. */
    method OnRequest(request: Request, now: int) returns (r: Outcome<ViewResult>)
      modifies service
      ensures Realized(Decide(request, UserId(), now), old(service.State()), old(service.log), service.log, r)
      ensures Effect(Decide(request, UserId(), now), old(service.State()), service.State())
    {
      if request.httpMethod == Get {
        return Ok(NoView);
      }
      var action := Member(request.payload, "action");
      match ActionOf(action) {
        case None =>
          return Ok(NoView);
        case Some(ListProjects) =>
          return Ok(ViewResult(Some(ListProjectsView), Undefined, None));
        case Some(ListRecords) =>
          var date := Member(request.payload, "date");
          var projectId := Member(Member(request.payload, "project"), "id");
          if !Truthy(projectId) {
            return Ok(ViewResult(Some(ListProjectsView), date, None));
          }
          var fetched := GetProject(projectId);
          return RecordsReply(date, fetched);
        case Some(CreateProject) =>
          r := CreateProjectAction(request);
        case Some(EditProject) =>
          r := EditProjectAction(request);
        case Some(StartNewRecord) =>
          r := StartNewRecordAction(request, now);
        case Some(StopRecord) =>
          r := StopRecordAction(request);
        case Some(EditRecord) =>
          r := EditRecordAction(request);
        case Some(DeleteRecord) =>
          r := DeleteRecordAction(request);
      }
    }
  }
}
