/** The billing of one exchange read straight off its JSON: an account of verdicts and of terminal accounting that goes
    through none of the intermediate readings. */
module ExchangeEffects {
  import opened Prelude
  import opened Peek
  import opened Charge
  import opened A = TerminalAccounting

  // ---------------------------------------------------------------- the body

  predicate Fails(body: Value) {
    body.Object? && "error" in body.fields && !body.fields["error"].Null?
  }

  /** A text directly under the result. */
  function ResultText(body: Value, key: string): Option<string> {
    if body.Object? && "result" in body.fields && body.fields["result"].Object?
       && key in body.fields["result"].fields && body.fields["result"].fields[key].Str?
    then Some(body.fields["result"].fields[key].s)
    else None
  }

  /** Task fields count only beside a status, and only where the body is no error. */
  function Status(body: Value): Option<string> {
    if Fails(body) then None else ResultText(body, "status")
  }

  function TaskId(body: Value): Option<string> {
    if Status(body).Some? then ResultText(body, "taskId") else None
  }

  predicate Dead(body: Value) {
    Status(body) == Some("failed") || Status(body) == Some("cancelled")
  }

  predicate Commissioning(body: Value) {
    !Fails(body) && ResultText(body, "resultType") == Some("task")
  }

  predicate PricedMethod(m: Method) {
    m == ToolsCall || m == ResourcesRead || m == PromptsGet
  }

  /** An older client's answer that has no textual result type counts as delivered work. */
  predicate Promoted(c: Completion) {
    c.legacy && PricedMethod(c.call.method_) && !Fails(c.body) && ResultText(c.body, "resultType").None?
  }

  predicate Direct(c: Completion) {
    || Promoted(c)
    || (&& !Fails(c.body) && ResultText(c.body, "resultType") == Some("complete")
        && (PricedMethod(c.call.method_) || c.call.method_.OtherMethod?))
  }

  predicate Delivered(c: Completion) {
    && c.call.method_ == TasksGet && Status(c.body) == Some("completed") && !Commissioning(c.body)
    && TaskId(c.body).Some?
  }

  /** A poll that answers for another task than it was asked about. */
  predicate Foreign(c: Completion) {
    && c.call.method_ == TasksGet && c.requestedTaskId.Some? && TaskId(c.body).Some?
    && TaskId(c.body) != c.requestedTaskId
  }

  lemma ReadingOf(c: Completion)
    ensures PeekOf(c).isError == Fails(c.body)
    ensures PeekOf(c).task.Some? <==> Status(c.body).Some?
    ensures PeekOf(c).task.Some? ==> PeekOf(c).task.value == TaskPeek(TaskId(c.body), ParseStatus(Status(c.body).value))
    ensures ResponseTaskId(c) == TaskId(c.body)
    ensures PeekOf(c).resultType == if Fails(c.body) then Absent
                                    else if Promoted(c) then Complete
                                    else ParseResultType(ResultText(c.body, "resultType"))
  {
    TextUnder(c.body, "resultType");
    TextUnder(c.body, "status");
    TextUnder(c.body, "taskId");
    assert PricedMethod(c.call.method_) <==> c.call.method_.DeliversPricedWork();
  }

  lemma TextUnder(body: Value, key: string)
    ensures body.Get("result").None? ==> ResultText(body, key).None?
    ensures body.Get("result").Some? ==> ResultText(body, key) == TextField(body.Get("result").value, key)
  {
  }

  // ---------------------------------------------------------------- the verdict

  /** A charge without a key is for a direct delivery, and every direct delivery is charged its call's price. */
  lemma DirectVerdict(c: Completion, origin: Option<Attribution>)
    ensures Direct(c) ==>
              VerdictOf(c, origin)
              == Billable(c.call.method_, c.call.name, UnitsFor(c.prices, c.call.method_, c.call.name), None)
    ensures VerdictOf(c, origin).Billable? && VerdictOf(c, origin).idempotencyKey.None? ==> Direct(c)
  {
    ReadingOf(c);
  }

  /** A charge with a key is for a delivered task, in the units of its attribution and under its identifier. */
  lemma TaskVerdict(c: Completion, origin: Option<Attribution>)
    ensures Delivered(c) && origin.Some? ==>
              VerdictOf(c, origin) == Billable(MethodOf(origin.value.kind), None, origin.value.units, TaskId(c.body))
    ensures VerdictOf(c, origin).Billable? && VerdictOf(c, origin).idempotencyKey.Some? ==> Delivered(c) && origin.Some?
  {
    ReadingOf(c);
  }

  /** An older client is charged as a newer one except for the answers that count as delivered by having no result
      type. */
  lemma LegacyDiffersOnlyWherePromoted(c: Completion, origin: Option<Attribution>)
    requires c.legacy
    ensures !Promoted(c) ==> VerdictOf(c, origin) == VerdictOf(c.(legacy := false), origin)
    ensures Promoted(c) ==> VerdictOf(c.(legacy := false), origin).Free?
  {
    ReadingOf(c);
    ReadingOf(c.(legacy := false));
  }

  /** The answer needs no result for that: a null error alone, which the reader lets through, is charged too. */
  lemma NullErrorIsBilled(tenant: string, prices: PriceBook, name: Option<string>)
    ensures var body := Object(map["error" := Null]);
            var c := Completion(tenant, prices, Call(ToolsCall, name), body, true, None);
            VerdictOf(c, None) == Billable(ToolsCall, name, UnitsFor(prices, ToolsCall, name), None)
  {
    var c := Completion(tenant, prices, Call(ToolsCall, name), Object(map["error" := Null]), true, None);
    DirectVerdict(c, None);
  }

  /** Why an exchange that is not charged is free. */
  function WhyFree(c: Completion): FreeReason {
    if Fails(c.body) then ProtocolError
    else if c.call.method_ in {ServerDiscover, ToolsList, PromptsList, ResourcesList, ResourcesTemplatesList}
         then Discovery
    else if c.call.method_ == SubscriptionsListen then Subscription
    else if Commissioning(c.body) then TaskCreated
    else if c.call.method_ == TasksGet && Status(c.body) == Some("completed") then
      if TaskId(c.body).None? then MissingTaskId else MissingTaskAttribution
    else if c.call.method_ == TasksGet && Dead(c.body) then TaskNotDelivered
    else if c.call.method_ == TasksGet && Status(c.body).Some? then TaskInProgress
    else if c.call.method_ in {TasksGet, TasksUpdate, TasksCancel} then TaskDrive
    else if ResultText(c.body, "resultType") == Some("input_required") then InterimInputRequired
    else UnrecognizedResult
  }

  lemma FreeVerdict(c: Completion, origin: Option<Attribution>)
    requires VerdictOf(c, origin).Free?
    ensures VerdictOf(c, origin) == Free(WhyFree(c))
  {
    ReadingOf(c);
    DirectVerdict(c, origin);
    TaskVerdict(c, origin);
  }

  // ---------------------------------------------------------------- what the exchange does

  function KeyFor(c: Completion, id: string): TaskKey {
    TaskKey(c.tenant, id)
  }

  /** The task a failure report is about: the one it names, or else the one that was asked about. */
  function ReportedTask(c: Completion): Option<string> {
    if TaskId(c.body).Some? then TaskId(c.body) else c.requestedTaskId
  }

  /** An attribution is charged once: the task's key is spent with it, unless there was nothing to charge. */
  function ChargeTask(s: Shared, key: TaskKey): Shared
    requires key in s.store
  {
    var units := s.store[key].units;
    if units == 0 || key in s.seen then s.(store := s.store - {key})
    else Shared(s.store - {key}, s.seen + {key}, s.units + units)
  }

  function ExchangeEffect(s: Shared, c: Completion, recorderFails: bool): Shared {
    var id := TaskId(c.body);
    if Foreign(c) || Fails(c.body) then s
    else if Direct(c) then
      if recorderFails then s else s.(units := s.units + UnitsFor(c.prices, c.call.method_, c.call.name))
    else if Dead(c.body) then
      if ReportedTask(c).Some? then s.(store := s.store - {KeyFor(c, ReportedTask(c).value)}) else s
    else if Commissioning(c.body) && id.Some? then
      if KeyFor(c, id.value) in s.store then s
      else s.(store := s.store[KeyFor(c, id.value) := FromCall(c.call, c.prices)])
    else if Delivered(c) && KeyFor(c, id.value) in s.store && !recorderFails then ChargeTask(s, KeyFor(c, id.value))
    else s
  }

  lemma PhasesOf(c: Completion)
    ensures Mismatched(c) <==> Foreign(c)
    ensures forall id :: Commissions(c, id) <==> Commissioning(c.body) && TaskId(c.body) == Some(id)
    ensures forall id :: Claims(c, id) <==>
              c.call.method_ == TasksGet && Status(c.body) == Some("completed") && TaskId(c.body) == Some(id)
    ensures EndsUndelivered(c) <==> Dead(c.body)
    ensures CleanUpId(c) == ReportedTask(c)
  {
    ReadingOf(c);
  }

  /** From the verdict on: what was claimed is spent on an accepted charge and otherwise back where it was. */
  lemma FromVerdict(s1: Shared, s2: Shared, c: Completion, p2: Phase, fails: bool)
    requires !Mismatched(c) && p2.Resolved? && (s2, p2) == Advance(s1, c, Inserted, fails)
    ensures var verdict := VerdictOf(c, p2.origin);
            Finish(s2, c, p2, fails) ==
            if verdict.Billable? then
              if fails then s1 else RecordUnits(s2, c.tenant, verdict.units, verdict.idempotencyKey)
            else if EndsUndelivered(c) && CleanUpId(c).Some?
            then s1.(store := s1.store - {TaskKey(c.tenant, CleanUpId(c).value)})
            else s1
  {
    var (s3, p3) := Advance(s2, c, p2, fails);
    if p3.Done? {
      assert Finish(s3, c, Done, fails) == s3;
    } else if p3.CleanUp? {
      CleanUpEnds(s1, c, fails);
    } else {
      var id := ResponseTaskId(c).value;
      assert (s1.store - {TaskKey(c.tenant, id)})[TaskKey(c.tenant, id) := s1.store[TaskKey(c.tenant, id)]] == s1.store;
      var p4 := if p3.thenCleanUp then CleanUp else Done;
      assert Advance(s2, c, p3, fails) == (s1, p4);
      assert Finish(s2, c, p3, fails) == Finish(s1, c, p4, fails);
      CleanUpEnds(s1, c, fails);
    }
  }

  lemma CleanUpEnds(s: Shared, c: Completion, fails: bool)
    ensures Finish(s, c, Done, fails) == s
    ensures Finish(s, c, CleanUp, fails) ==
            if EndsUndelivered(c) && CleanUpId(c).Some?
                then s.(store := s.store - {TaskKey(c.tenant, CleanUpId(c).value)})
            else s
  {
    assert Finish(s, c, CleanUp, fails) == Advance(s, c, CleanUp, fails).0;
  }

  lemma FromStart(s: Shared, c: Completion, fails: bool)
    ensures Mismatched(c) ==> Finish(s, c, Start, fails) == s
    ensures !Mismatched(c) ==>
              var s1 := Advance(s, c, Start, fails).0;
              var (s2, p2) := Advance(s1, c, Inserted, fails);
              Finish(s, c, Start, fails) == Finish(s2, c, p2, fails)
  {
    if Mismatched(c) {
      assert Finish(s, c, Start, fails) == Finish(s, c, Done, fails);
    } else {
      var s1 := Advance(s, c, Start, fails).0;
      assert Finish(s, c, Start, fails) == Finish(s1, c, Inserted, fails);
    }
  }

  /** Terminal accounting with nobody in between, step by step as it is, does to the store, the recorder's memory and
      the total exactly this. */
  lemma FinishExactly(s: Shared, c: Completion, recorderFails: bool)
    ensures Finish(s, c, Start, recorderFails) == ExchangeEffect(s, c, recorderFails)
  {
    FromStart(s, c, recorderFails);
    PhasesOf(c);
    if !Mismatched(c) {
      var s1 := Advance(s, c, Start, recorderFails).0;
      var (s2, p2) := Advance(s1, c, Inserted, recorderFails);
      FromVerdict(s1, s2, c, p2, recorderFails);
      StoresOf(s, s1, s2, c, p2, recorderFails);
      EffectOfVerdict(s, s1, s2, c, p2.origin, recorderFails);
    }
  }

  /** The store after a commission, and after a claim. */
  lemma StoresOf(s: Shared, s1: Shared, s2: Shared, c: Completion, p2: Phase, fails: bool)
    requires !Mismatched(c) && s1 == Advance(s, c, Start, fails).0 && (s2, p2) == Advance(s1, c, Inserted, fails)
    ensures p2.Resolved? && CommissionedAndClaimed(s, s1, s2, c, p2.origin)
  {
    PhasesOf(c);
    ReadingOf(c);
  }

  predicate CommissionedAndClaimed(s: Shared, s1: Shared, s2: Shared, c: Completion, origin: Option<Attribution>) {
    var id := TaskId(c.body);
    && (if Commissioning(c.body) && id.Some? && KeyFor(c, id.value) !in s.store
        then s1 == s.(store := s.store[KeyFor(c, id.value) := FromCall(c.call, c.prices)])
        else s1 == s)
    && (if c.call.method_ == TasksGet && Status(c.body) == Some("completed") && id.Some?
        && KeyFor(c, id.value) in s1.store
        then s2 == s1.(store := s1.store - {KeyFor(c, id.value)}) && origin == Some(s1.store[KeyFor(c, id.value)])
        else s2 == s1 && origin == None)
  }

  lemma EffectOfVerdict(s: Shared, s1: Shared, s2: Shared, c: Completion, origin: Option<Attribution>, fails: bool)
    requires !Foreign(c) && CommissionedAndClaimed(s, s1, s2, c, origin)
    ensures var verdict := VerdictOf(c, origin);
            ExchangeEffect(s, c, fails) ==
            if verdict.Billable? then
              if fails then s1 else RecordUnits(s2, c.tenant, verdict.units, verdict.idempotencyKey)
            else if Dead(c.body) && ReportedTask(c).Some?
            then s1.(store := s1.store - {KeyFor(c, ReportedTask(c).value)})
            else s1
  {
    DirectVerdict(c, origin);
    TaskVerdict(c, origin);
    var id := TaskId(c.body);
    if Direct(c) {
      assert s1 == s && s2 == s;
    } else if Delivered(c) && origin.Some? {
      assert s1 == s;
    } else if Dead(c.body) && Commissioning(c.body) && id.Some? {
      var key := KeyFor(c, id.value);
      assert s.store[key := FromCall(c.call, c.prices)] - {key} == s.store - {key};
    }
  }
}
