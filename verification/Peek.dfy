/** MCP methods, and the bounded look into a response body that every billing verdict starts from. */
module Peek {
  import opened Prelude

  datatype Value =
    | Null
    | Bool(b: bool)
    | Number(n: real)
    | Str(s: string)
    | Array(items: seq<Value>)
    | Object(fields: map<string, Value>)
  {
    /** `Value::get`: a field of an object, and nothing of anything else. */
    function Get(key: string): Option<Value> {
      if Object? && key in fields then Some(fields[key]) else None
    }

    function AsStr(): Option<string> {
      if Str? then Some(s) else None
    }
  }

  datatype Method =
    | ToolsCall | ToolsList | ResourcesRead | ResourcesList | ResourcesTemplatesList | PromptsGet | PromptsList
    | ServerDiscover | TasksGet | TasksUpdate | TasksCancel | SubscriptionsListen | OtherMethod(name: string)
  {
    predicate IsDiscovery() {
      ServerDiscover? || ToolsList? || PromptsList? || ResourcesList? || ResourcesTemplatesList?
    }

    predicate IsTaskDrive() {
      TasksGet? || TasksUpdate? || TasksCancel?
    }

    predicate DeliversPricedWork() {
      ToolsCall? || ResourcesRead? || PromptsGet?
    }
  }

  datatype ResultType = Complete | InputRequired | Task | UnknownType(raw: string) | Absent

  datatype TaskStatus = Working | AwaitingInput | Completed | Failed | Cancelled | UnknownStatus(raw: string)
  {
    predicate IsTerminal() {
      Completed? || Failed? || Cancelled?
    }

    predicate Delivered() {
      Completed?
    }
  }

  function ParseStatus(raw: string): TaskStatus {
    if raw == "working" then Working
    else if raw == "input_required" then AwaitingInput
    else if raw == "completed" then Completed
    else if raw == "failed" then Failed
    else if raw == "cancelled" then Cancelled
    else UnknownStatus(raw)
  }

  /** How a status is written. */
  function StatusText(status: TaskStatus): string {
    match status
    case Working => "working"
    case AwaitingInput => "input_required"
    case Completed => "completed"
    case Failed => "failed"
    case Cancelled => "cancelled"
    case UnknownStatus(raw) => raw
  }

  /** Every text is read as the status it is the text of, and the five known ones are told apart from all others. */
  lemma StatusRoundTrip(raw: string, status: TaskStatus)
    ensures StatusText(ParseStatus(raw)) == raw
    ensures !status.UnknownStatus? ==> ParseStatus(StatusText(status)) == status
  {
  }

  datatype TaskPeek = TaskPeek(taskId: Option<string>, status: TaskStatus)

  datatype ResponsePeek = ResponsePeek(resultType: ResultType, isError: bool, task: Option<TaskPeek>)

  const UNRECOGNIZED := ResponsePeek(Absent, false, None)

  function TextField(value: Value, key: string): Option<string> {
    if value.Get(key).Some? then value.Get(key).value.AsStr() else None
  }

  function PeekTask(result: Value): Option<TaskPeek> {
    var status := TextField(result, "status");
    if status.None? then None else Some(TaskPeek(TextField(result, "taskId"), ParseStatus(status.value)))
  }

  function ParseResultType(raw: Option<string>): ResultType {
    match raw
    case None => Absent
    case Some(text) =>
      if text == "complete" then Complete
      else if text == "input_required" then InputRequired
      else if text == "task" then Task
      else UnknownType(text)
  }

  function Response(body: Value): ResponsePeek {
    if body.Get("error").Some? && !body.Get("error").value.Null? then ResponsePeek(Absent, true, None)
    else if body.Get("result").None? then UNRECOGNIZED
    else
      var result := body.Get("result").value;
      ResponsePeek(ParseResultType(TextField(result, "resultType")), false, PeekTask(result))
  }

  /** Older revisions have no result types; there an untyped result of a method that can owe money counts as
      complete. */
  function WithLegacyDelivery(r: ResponsePeek, m: Method): ResponsePeek {
    if m.DeliversPricedWork() && r.resultType.Absent? && !r.isError then r.(resultType := Complete) else r
  }
}
