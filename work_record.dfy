/**
 * BeWorkRecord: an immutable value object for one period of work on a
 * project. The constructor validates its arguments and stores them unchanged;
 * `hours` derives the worked time; `valueOf` and `parseValue` convert to and
 * from the plain object that travels in requests.
 */
module WorkRecord {
  import opened Wrappers
  import opened JsValues
  import opened Calendar

  /** The `WaObjectType.WORK_RECORD` tag; WaObjectType is not part of this model. */
  const WorkRecordType: string

  /** The seven fields exactly as the constructor received them. */
  datatype Record = Record(
    id: Value,
    userId: Value,
    projectId: Value,
    startTime: Value,
    endTime: Value,
    description: Value,
    lunchMinutes: Value)
  {
    /** What the constructor demands: non-empty string ids, and typed optional fields. */
    predicate Valid() {
      && IsNonEmptyString(id)
      && IsNonEmptyString(userId)
      && IsNonEmptyString(projectId)
      && (startTime == Undefined || IsDateString(startTime))
      && (endTime == Undefined || IsDateString(endTime))
      && (description == Undefined || IsString(description))
      && (lunchMinutes == Undefined || IsNumber(lunchMinutes))
    }

    /** `moment(startTime)`: the current moment when there is no start time. */
    function Start(now: int): int
      requires Valid()
    {
      if startTime.DateString? then startTime.t else now
    }

    /** `moment(endTime ? endTime : Date.now())`: a record without an end is still running. */
    function End(now: int): int
      requires Valid()
    {
      if Truthy(endTime) then endTime.t else now
    }

    /** The elapsed time, `duration.asHours()`, in exact arithmetic. */
    function ElapsedHours(now: int): real
      requires Valid()
    {
      (End(now) - Start(now)) as real / MsPerHour as real
    }

    /** The lunch break in hours, an absent one counting as none. */
    function LunchHours(): real
      requires Valid()
    {
      if lunchMinutes.Num? then lunchMinutes.n / 60.0 else 0.0
    }

    /**
     * `hours` as the source computes it. `undefined / 60` is NaN in JavaScript,
     * and `NaN < 0` is false, so a record without lunchMinutes has NaN hours:
     * None stands for NaN here.
     */
    function HoursAsWritten(now: int): (h: Option<real>)
      requires Valid()
      ensures lunchMinutes == Undefined <==> h == None
      ensures h.Some? ==> h.value >= 0.0 && h.value == Hours(now)
    {
      if lunchMinutes.Num? then
        var hours := ElapsedHours(now) - lunchMinutes.n / 60.0;
        Some(if hours < 0.0 then 0.0 else hours)
      else
        None
    }

    /**
     * `hours` with the evident intent for a record without lunchMinutes (no
     * deduction): elapsed time minus lunch, clamped at zero.
     */
    function Hours(now: int): (h: real)
      requires Valid()
      ensures h >= 0.0
      ensures h >= ElapsedHours(now) - LunchHours()
      ensures h == 0.0 || h == ElapsedHours(now) - LunchHours()
    {
      var hours := ElapsedHours(now) - LunchHours();
      if hours < 0.0 then 0.0 else hours
    }

    /** `valueOf()`: the type tag and the seven fields. */
    function ValueOf(): (v: Value)
      ensures v.Obj?
      ensures v.fields.Keys == {"type", "id", "userId", "projectId", "startTime", "endTime", "description", "lunchMinutes"}
      ensures Member(v, "type") == Str(WorkRecordType)
      ensures Member(v, "id") == id && Member(v, "userId") == userId && Member(v, "projectId") == projectId
      ensures Member(v, "startTime") == startTime && Member(v, "endTime") == endTime
      ensures Member(v, "description") == description && Member(v, "lunchMinutes") == lunchMinutes
    {
      Obj(map[
        "type" := Str(WorkRecordType),
        "id" := id,
        "userId" := userId,
        "projectId" := projectId,
        "startTime" := startTime,
        "endTime" := endTime,
        "description" := description,
        "lunchMinutes" := lunchMinutes])
    }
  }

  /**
   * `new BeWorkRecord({...})`. The checks run in this order and the first
   * failing one is thrown; an absent optional field (undefined) is not checked.
   */
  function New(id: Value, userId: Value, projectId: Value, startTime: Value, endTime: Value,
               description: Value, lunchMinutes: Value): (r: Outcome<Record>)
    ensures r.Ok? <==> Record(id, userId, projectId, startTime, endTime, description, lunchMinutes).Valid()
    ensures r.Ok? ==> r.value.id == id && r.value.userId == userId && r.value.projectId == projectId
                      && r.value.startTime == startTime && r.value.endTime == endTime
                      && r.value.description == description && r.value.lunchMinutes == lunchMinutes
    ensures !IsNonEmptyString(id) ==> r == Err(InvalidArgument("id"))
    ensures IsNonEmptyString(id) && !IsNonEmptyString(userId) ==> r == Err(InvalidArgument("userId"))
    ensures IsNonEmptyString(id) && IsNonEmptyString(userId) && !IsNonEmptyString(projectId)
            ==> r == Err(InvalidArgument("projectId"))
    ensures IsNonEmptyString(id) && IsNonEmptyString(userId) && IsNonEmptyString(projectId)
            && startTime != Undefined && !IsDateString(startTime)
            ==> r == Err(InvalidArgument("startTime"))
    ensures IsNonEmptyString(id) && IsNonEmptyString(userId) && IsNonEmptyString(projectId)
            && (startTime == Undefined || IsDateString(startTime)) && endTime != Undefined && !IsDateString(endTime)
            ==> r == Err(InvalidArgument("endTime"))
    ensures IsNonEmptyString(id) && IsNonEmptyString(userId) && IsNonEmptyString(projectId)
            && (startTime == Undefined || IsDateString(startTime)) && (endTime == Undefined || IsDateString(endTime))
            && description != Undefined && !IsString(description)
            ==> r == Err(InvalidArgument("description"))
    ensures IsNonEmptyString(id) && IsNonEmptyString(userId) && IsNonEmptyString(projectId)
            && (startTime == Undefined || IsDateString(startTime)) && (endTime == Undefined || IsDateString(endTime))
            && (description == Undefined || IsString(description)) && lunchMinutes != Undefined && !IsNumber(lunchMinutes)
            ==> r == Err(InvalidArgument("lunchMinutes"))
    ensures r.Err? ==> r.error.InvalidArgument?
  {
    if !(Truthy(id) && IsString(id)) then Err(InvalidArgument("id"))
    else if !(Truthy(userId) && IsString(userId)) then Err(InvalidArgument("userId"))
    else if !(Truthy(projectId) && IsString(projectId)) then Err(InvalidArgument("projectId"))
    else if startTime != Undefined && !IsDateString(startTime) then Err(InvalidArgument("startTime"))
    else if endTime != Undefined && !IsDateString(endTime) then Err(InvalidArgument("endTime"))
    else if description != Undefined && !IsString(description) then Err(InvalidArgument("description"))
    else if lunchMinutes != Undefined && !IsNumber(lunchMinutes) then Err(InvalidArgument("lunchMinutes"))
    else Ok(Record(id, userId, projectId, startTime, endTime, description, lunchMinutes))
  }

  /** What `parseValue` may receive: a BeWorkRecord instance or any other value. */
  datatype RecordInput = Instance(record: Record) | Plain(value: Value)

  /**
   * `BeWorkRecord.parseValue(modelValue)`: a falsy value and a wrong type tag
   * are rejected, an instance is returned as it is, and anything else is
   * destructured and passed to the constructor.
   */
  function ParseValue(input: RecordInput): (r: Outcome<Record>)
    ensures input.Instance? ==> r == Ok(input.record)
    ensures input.Plain? && !Truthy(input.value) ==> r == Err(NotDefined)
    ensures input.Plain? && Truthy(input.value) && Member(input.value, "type") != Str(WorkRecordType)
            ==> r == Err(WrongType)
    ensures input.Plain? && r.Ok? ==> r.value.Valid()
  {
    match input
    case Instance(rec) => Ok(rec)
    case Plain(v) =>
      if !Truthy(v) then Err(NotDefined)
      else if Member(v, "type") != Str(WorkRecordType) then Err(WrongType)
      else New(Member(v, "id"), Member(v, "userId"), Member(v, "projectId"), Member(v, "startTime"),
               Member(v, "endTime"), Member(v, "description"), Member(v, "lunchMinutes"))
  }

  /** `parseValue(r.valueOf())` rebuilds a record with the same seven fields. */
  lemma {:induction false} ParseValueOfValue(rec: Record)
    requires rec.Valid()
    ensures ParseValue(Plain(rec.ValueOf())) == Ok(rec)
  {
    var v := rec.ValueOf();
    assert Truthy(v);
    var r := New(Member(v, "id"), Member(v, "userId"), Member(v, "projectId"), Member(v, "startTime"),
                 Member(v, "endTime"), Member(v, "description"), Member(v, "lunchMinutes"));
    assert r.Ok?;
  }

  /** A value parsed from a plain object turns back into the same plain object, once its keys are the eight ones. */
  lemma {:induction false} ValueOfParsed(v: Value)
    requires v.Obj? && v.fields.Keys == {"type", "id", "userId", "projectId", "startTime", "endTime", "description", "lunchMinutes"}
    requires ParseValue(Plain(v)).Ok?
    ensures ParseValue(Plain(v)).value.ValueOf() == v
  {
    var rec := ParseValue(Plain(v)).value;
    assert rec.ValueOf().fields == v.fields;
  }

  /** A record without lunchMinutes: its `hours` is NaN as written. */
  lemma NaNHoursWithoutLunch()
    ensures var rec := Record(Str("r"), Str("u"), Str("p"), DateString(0), DateString(MsPerHour), Str(""), Undefined);
            rec.Valid() && rec.HoursAsWritten(0) == None && rec.Hours(0) == 1.0
  {
  }

  /**
   * A running record (no end time) never loses hours as time passes, and once
   * it shows a positive number of hours, that number strictly grows.
   */
  lemma {:induction false} RunningHoursGrow(rec: Record, now: int, later: int)
    requires rec.Valid() && rec.endTime == Undefined && rec.startTime.DateString?
    requires now <= later
    ensures rec.Hours(now) <= rec.Hours(later)
    ensures rec.Hours(now) > 0.0 && now < later ==> rec.Hours(now) < rec.Hours(later)
  {
    var s := rec.startTime.t;
    assert rec.ElapsedHours(now) == (now - s) as real / MsPerHour as real;
    assert rec.ElapsedHours(later) == (later - s) as real / MsPerHour as real;
    assert rec.ElapsedHours(now) <= rec.ElapsedHours(later);
    if now < later {
      assert rec.ElapsedHours(now) < rec.ElapsedHours(later);
    }
  }
}
