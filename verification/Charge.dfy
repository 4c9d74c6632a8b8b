/** When an exchange becomes a charge, for how much, and under which key. */
module Charge {
  import opened Prelude
  import opened Peek

  datatype Call = Call(method_: Method, name: Option<string>)

  datatype PriceBook = PriceBook(defaultUnits: u64, names: map<string, u64>, methods: map<Method, u64>)

  function UnitsFor(prices: PriceBook, m: Method, name: Option<string>): u64 {
    if name.Some? && name.value in prices.names then prices.names[name.value]
    else if m in prices.methods then prices.methods[m]
    else prices.defaultUnits
  }

  datatype OriginKind = FromToolsCall | FromResourcesRead | FromPromptsGet | FromOther

  datatype Attribution = Attribution(kind: OriginKind, units: u64)

  function KindOf(m: Method): OriginKind {
    match m
    case ToolsCall => FromToolsCall
    case ResourcesRead => FromResourcesRead
    case PromptsGet => FromPromptsGet
    case _ => FromOther
  }

  function MethodOf(kind: OriginKind): Method {
    match kind
    case FromToolsCall => ToolsCall
    case FromResourcesRead => ResourcesRead
    case FromPromptsGet => PromptsGet
    case FromOther => OtherMethod("[redacted-task-origin]")
  }

  function FromCall(call: Call, prices: PriceBook): Attribution {
    Attribution(KindOf(call.method_), UnitsFor(prices, call.method_, call.name))
  }

  datatype FreeReason =
    | Discovery | InterimInputRequired | TaskCreated | TaskInProgress | TaskNotDelivered | TaskDrive
    | MissingTaskAttribution | MissingTaskId | Subscription | ProtocolError | UnrecognizedResult

  /** A charge names the work it is for, as far as it is known, and the key under which it may be recorded only once. */
  datatype Verdict =
    | Billable(method_: Method, name: Option<string>, units: u64, idempotencyKey: Option<string>)
    | Free(reason: FreeReason)

  datatype TaskPricing = ByCall(origin: Call) | ByAttribution(attribution: Attribution)

  function PriceOf(pricing: TaskPricing, prices: PriceBook): u64 {
    match pricing
    case ByCall(origin) => UnitsFor(prices, origin.method_, origin.name)
    case ByAttribution(attribution) => attribution.units
  }

  /** The call a charge is reported for; a stored attribution knows only the kind of its method. */
  function CommissionedBy(pricing: TaskPricing): Call {
    match pricing
    case ByCall(origin) => origin
    case ByAttribution(attribution) => Call(MethodOf(attribution.kind), None)
  }

  /** The verdict, in the order the source decides it. */
  function Decide(call: Call, r: ResponsePeek, prices: PriceBook, pricing: Option<TaskPricing>): Verdict {
    if r.isError then Free(ProtocolError)
    else if call.method_.IsDiscovery() then Free(Discovery)
    else if call.method_.SubscriptionsListen? then Free(Subscription)
    else if r.resultType.Task? then Free(TaskCreated)
    else if call.method_.TasksGet? && r.task.Some? then
      var task := r.task.value;
      if task.status.Delivered() then
        if task.taskId.None? then Free(MissingTaskId)
        else if pricing.None? then Free(MissingTaskAttribution)
        else Billable(CommissionedBy(pricing.value).method_, CommissionedBy(pricing.value).name,
                      PriceOf(pricing.value, prices), task.taskId)
      else if task.status.IsTerminal() then Free(TaskNotDelivered)
      else Free(TaskInProgress)
    else if call.method_.IsTaskDrive() then Free(TaskDrive)
    else match r.resultType
      case Complete => Billable(call.method_, call.name, UnitsFor(prices, call.method_, call.name), None)
      case InputRequired => Free(InterimInputRequired)
      case Task => Free(TaskCreated)
      case UnknownType(_) => Free(UnrecognizedResult)
      case Absent => Free(UnrecognizedResult)
  }

  function DecideWithOrigin(call: Call, r: ResponsePeek, prices: PriceBook, origin: Option<Call>): Verdict {
    Decide(call, r, prices, if origin.Some? then Some(ByCall(origin.value)) else None)
  }

  function DecideWithAttribution(call: Call, r: ResponsePeek, prices: PriceBook,
                                 attribution: Option<Attribution>): Verdict {
    Decide(call, r, prices, if attribution.Some? then Some(ByAttribution(attribution.value)) else None)
  }

  /** A poll that reports a finished task under its identifier, and is not itself a task creation. */
  predicate Delivers(call: Call, r: ResponsePeek, id: string) {
    && !r.isError && call.method_.TasksGet? && !r.resultType.Task?
    && r.task.Some? && r.task.value.status.Completed? && r.task.value.taskId == Some(id)
  }

  /** A finished result of a method that is neither discovery, a stream nor task plumbing. */
  predicate DeliversDirectly(call: Call, r: ResponsePeek) {
    && !r.isError && r.resultType.Complete?
    && !call.method_.IsDiscovery() && !call.method_.SubscriptionsListen? && !call.method_.IsTaskDrive()
  }

  /** Money is owed for exactly two things: a direct delivery, and the delivery of a task whose price is known. */
  lemma BillsExactlyDelivery(call: Call, r: ResponsePeek, prices: PriceBook, pricing: Option<TaskPricing>)
    ensures var verdict := Decide(call, r, prices, pricing);
            && (verdict.Billable? && verdict.idempotencyKey.None? <==> DeliversDirectly(call, r))
            && (DeliversDirectly(call, r) ==>
                  verdict == Billable(call.method_, call.name, UnitsFor(prices, call.method_, call.name), None))
            && (verdict.Billable? && verdict.idempotencyKey.Some? <==>
                pricing.Some? && r.task.Some? && r.task.value.taskId.Some?
                    && Delivers(call, r, r.task.value.taskId.value))
            && (verdict.Billable? && verdict.idempotencyKey.Some? ==>
                  var origin := CommissionedBy(pricing.value);
                  verdict == Billable(origin.method_, origin.name, PriceOf(pricing.value, prices), r.task.value.taskId))
  {
  }

  /** What is left of a verdict without the text an attribution does not keep. */
  function Anonymous(v: Verdict): Verdict {
    if v.Billable? && v.idempotencyKey.Some?
        then Billable(MethodOf(KindOf(v.method_)), None, v.units, v.idempotencyKey) else v
  }

  /** The stored, anonymous attribution prices a task as the original call would, and keeps of it only the kind of
      method. */
  lemma AttributionPricesAlike(call: Call, r: ResponsePeek, prices: PriceBook, origin: Option<Call>)
    ensures DecideWithAttribution(call, r, prices, if origin.Some? then Some(FromCall(origin.value, prices)) else None)
            == Anonymous(DecideWithOrigin(call, r, prices, origin))
  {
  }

  /** The legacy promotion charges a method that delivers priced work for a bare result, and charges nothing else
      anew. */
  lemma LegacyPromotionBillsOnlyPricedWork(call: Call, r: ResponsePeek, prices: PriceBook, pricing: Option<TaskPricing>)
    ensures var modern := Decide(call, r, prices, pricing);
            var legacy := Decide(call, WithLegacyDelivery(r, call.method_), prices, pricing);
            legacy == if call.method_.DeliversPricedWork() && r.resultType.Absent? && !r.isError
                      then Billable(call.method_, call.name, UnitsFor(prices, call.method_, call.name), None)
                      else modern
  {
  }

  // ---------------------------------------------------------------- what a price book says

  /** An empty book charges its default, and naming a price changes the price of that name and of no other call. */
  lemma NamedPricesWin(prices: PriceBook, units: u64, name: string, m: Method, x: Option<string>)
    ensures UnitsFor(PriceBook(units, map[], map[]), m, x) == units
    ensures UnitsFor(prices.(names := prices.names[name := units]), m, x) ==
            if x == Some(name) then units else UnitsFor(prices, m, x)
  {
  }

  /** A method's price reaches exactly its calls whose name has no price of its own. */
  lemma MethodPricesReachTheRest(prices: PriceBook, units: u64, priced: Method, m: Method, x: Option<string>)
    ensures UnitsFor(prices.(methods := prices.methods[priced := units]), m, x) ==
            if m == priced && (x.None? || x.value !in prices.names) then units else UnitsFor(prices, m, x)
  {
  }

  /** An attribution keeps the price of its call, and names its method again if that is one of the three that
      deliver. */
  lemma AttributionKeepsThePrice(call: Call, prices: PriceBook)
    ensures FromCall(call, prices).units == UnitsFor(prices, call.method_, call.name)
    ensures call.method_.DeliversPricedWork() ==> MethodOf(FromCall(call, prices).kind) == call.method_
    ensures !call.method_.DeliversPricedWork() ==>
              MethodOf(FromCall(call, prices).kind) == OtherMethod("[redacted-task-origin]")
  {
  }
}
