/**
 * The two string enumerations of the view: the action names a request carries
 * and the names of the two screens.
 */
module WorkNames {
  import opened Wrappers
  import opened JsValues

  datatype Action =
    | CreateProject
    | EditProject
    | ListProjects
    | ListRecords
    | StartNewRecord
    | StopRecord
    | EditRecord
    | DeleteRecord
  {
    /** The string the action travels as in `payload.action`. */
    function Name(): string {
      match this
      case CreateProject => "createProject"
      case EditProject => "editProject"
      case ListProjects => "listProjects"
      case ListRecords => "listRecords"
      case StartNewRecord => "startNewRecord"
      case StopRecord => "stopRecord"
      case EditRecord => "editRecord"
      case DeleteRecord => "deleteRecord"
    }
  }

  /** The `case` of the dispatcher's switch that a `payload.action` value selects (strict equality). */
  function ActionOf(v: Value): (r: Option<Action>)
    ensures r.Some? ==> v == Str(r.value.Name())
  {
    if v == Str("createProject") then Some(CreateProject)
    else if v == Str("editProject") then Some(EditProject)
    else if v == Str("listProjects") then Some(ListProjects)
    else if v == Str("listRecords") then Some(ListRecords)
    else if v == Str("startNewRecord") then Some(StartNewRecord)
    else if v == Str("stopRecord") then Some(StopRecord)
    else if v == Str("editRecord") then Some(EditRecord)
    else if v == Str("deleteRecord") then Some(DeleteRecord)
    else None
  }

  /** Every action name selects its own case: the eight names are distinct. */
  lemma {:induction false} ActionOfName(a: Action)
    ensures ActionOf(Str(a.Name())) == Some(a)
  {
    match a
    case CreateProject =>
    case EditProject =>
    case ListProjects =>
    case ListRecords =>
    case StartNewRecord =>
    case StopRecord =>
    case EditRecord =>
    case DeleteRecord =>
  }

  datatype ViewName = ListProjectsView | ListRecordsView {
    function Name(): string {
      match this
      case ListProjectsView => "listProjects"
      case ListRecordsView => "listRecords"
    }
  }
}
