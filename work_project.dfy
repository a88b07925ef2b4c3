/**
 * BeWorkProject: an immutable value object for a project (a client or work
 * category) owned by a user. The constructor validates its arguments and
 * stores them unchanged; `valueOf` and `parseValue` convert to and from the
 * plain object that travels in requests.
 */
module WorkProject {
  import opened Wrappers
  import opened JsValues

  /** The `WaObjectType.WORK_PROJECT` tag; WaObjectType is not part of this model. */
  const WorkProjectType: string

  /** The five fields exactly as the constructor received them (`title` is the source's `label`). */
  datatype Project = Project(id: Value, userId: Value, clientId: Value, title: Value, lunchMinutes: Value)
  {
    /** What the constructor demands: UUID id and owner, and typed optional fields. */
    predicate Valid() {
      && IsUuid(id)
      && IsUuid(userId)
      && (clientId == Undefined || IsString(clientId))
      && (title == Undefined || IsString(title))
      && (lunchMinutes == Undefined || IsNumber(lunchMinutes))
    }

    /** `valueOf()`: the type tag and the five fields. */
    function ValueOf(): (v: Value)
      ensures v.Obj? && v.fields.Keys == {"type", "id", "userId", "clientId", "label", "lunchMinutes"}
      ensures Member(v, "type") == Str(WorkProjectType)
      ensures Member(v, "id") == id && Member(v, "userId") == userId
      ensures Member(v, "clientId") == clientId && Member(v, "label") == title
      ensures Member(v, "lunchMinutes") == lunchMinutes
    {
      Obj(map[
        "type" := Str(WorkProjectType),
        "id" := id,
        "userId" := userId,
        "clientId" := clientId,
        "label" := title,
        "lunchMinutes" := lunchMinutes])
    }
  }

  /**
   * `new BeWorkProject({id, userId, clientId, label, lunchMinutes})`. The checks
   * run in this order and the first failing one is thrown; an absent optional
   * field (undefined) is not checked and stays undefined.
   */
  function New(id: Value, userId: Value, clientId: Value, title: Value, lunchMinutes: Value): (r: Outcome<Project>)
    ensures r.Ok? <==> Project(id, userId, clientId, title, lunchMinutes).Valid()
    ensures r.Ok? ==> r.value == Project(id, userId, clientId, title, lunchMinutes)
    ensures r.Ok? ==> r.value.id == id && r.value.userId == userId && r.value.clientId == clientId
                      && r.value.title == title && r.value.lunchMinutes == lunchMinutes
    ensures !IsUuid(id) ==> r == Err(InvalidArgument("id"))
    ensures IsUuid(id) && !IsUuid(userId) ==> r == Err(InvalidArgument("userId"))
    ensures IsUuid(id) && IsUuid(userId) && clientId != Undefined && !IsString(clientId)
            ==> r == Err(InvalidArgument("clientId"))
    ensures IsUuid(id) && IsUuid(userId) && (clientId == Undefined || IsString(clientId))
            && title != Undefined && !IsString(title)
            ==> r == Err(InvalidArgument("label"))
    ensures IsUuid(id) && IsUuid(userId) && (clientId == Undefined || IsString(clientId))
            && (title == Undefined || IsString(title)) && lunchMinutes != Undefined && !IsNumber(lunchMinutes)
            ==> r == Err(InvalidArgument("lunchMinutes"))
    ensures r.Err? ==> r.error.InvalidArgument?
  {
    if !IsUuid(id) then Err(InvalidArgument("id"))
    else if !IsUuid(userId) then Err(InvalidArgument("userId"))
    else if clientId != Undefined && !IsString(clientId) then Err(InvalidArgument("clientId"))
    else if title != Undefined && !IsString(title) then Err(InvalidArgument("label"))
    else if lunchMinutes != Undefined && !IsNumber(lunchMinutes) then Err(InvalidArgument("lunchMinutes"))
    else Ok(Project(id, userId, clientId, title, lunchMinutes))
  }

  /** What `parseValue` may receive: a BeWorkProject instance or any other value. */
  datatype ProjectInput = Instance(project: Project) | Plain(value: Value)

  /**
   * `BeWorkProject.parseValue(modelValue)`: a falsy value and a wrong type tag
   * are rejected, an instance is returned as it is, and anything else is
   * destructured and passed to the constructor.
   */
  function ParseValue(input: ProjectInput): (r: Outcome<Project>)
    ensures input.Instance? ==> r == Ok(input.project)
    ensures input.Plain? && !Truthy(input.value) ==> r == Err(NotDefined)
    ensures input.Plain? && Truthy(input.value) && Member(input.value, "type") != Str(WorkProjectType)
            ==> r == Err(WrongType)
    ensures input.Plain? && r.Ok? ==> r.value.Valid()
  {
    match input
    case Instance(p) => Ok(p)
    case Plain(v) =>
      if !Truthy(v) then Err(NotDefined)
      else if Member(v, "type") != Str(WorkProjectType) then Err(WrongType)
      else New(Member(v, "id"), Member(v, "userId"), Member(v, "clientId"), Member(v, "label"), Member(v, "lunchMinutes"))
  }

  /** `parseValue(p.valueOf())` rebuilds a project equal to `p`. */
  lemma {:induction false} ParseValueOfValue(p: Project)
    requires p.Valid()
    ensures ParseValue(Plain(p.ValueOf())) == Ok(p)
  {
    var v := p.ValueOf();
    assert Truthy(v);
    assert New(Member(v, "id"), Member(v, "userId"), Member(v, "clientId"), Member(v, "label"), Member(v, "lunchMinutes"))
        == New(p.id, p.userId, p.clientId, p.title, p.lunchMinutes);
  }

  /** A value parsed from a plain object turns back into the same plain object, once its keys are the six ones. */
  lemma {:induction false} ValueOfParsed(v: Value)
    requires v.Obj? && v.fields.Keys == {"type", "id", "userId", "clientId", "label", "lunchMinutes"}
    requires ParseValue(Plain(v)).Ok?
    ensures ParseValue(Plain(v)).value.ValueOf() == v
  {
    var p := ParseValue(Plain(v)).value;
    assert p.ValueOf().fields == v.fields;
  }
}
