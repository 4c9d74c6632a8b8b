/** The overbilling harness's meter: one fold over a tenant's exchanges, and the edge compared with it. */
module ReferenceMeter {
  import opened Prelude
  import opened Peek
  import opened Charge
  import opened A = TerminalAccounting

  /** What the meter remembers: the first call behind each task, the keys it has settled, and the exact total. */
  datatype Memory = Memory(origins: map<string, Call>, settled: set<string>, total: nat)

  const BLANK := Memory(map[], {}, 0)

  function TaskIdOf(r: ResponsePeek): Option<string> {
    if r.task.Some? then r.task.value.taskId else None
  }

  function Commissioned(m: Memory, call: Call, r: ResponsePeek): map<string, Call> {
    var id := TaskIdOf(r);
    if r.resultType.Task? && id.Some? && id.value !in m.origins then m.origins[id.value := call] else m.origins
  }

  function OriginOf(origins: map<string, Call>, r: ResponsePeek): Option<Call> {
    var id := TaskIdOf(r);
    if id.Some? && id.value in origins then Some(origins[id.value]) else None
  }

  function Meter(m: Memory, prices: PriceBook, call: Call, body: Value): Memory {
    var r := Response(body);
    var origins := Commissioned(m, call, r);
    match DecideWithOrigin(call, r, prices, OriginOf(origins, r))
    case Free(_) => m.(origins := origins)
    case Billable(_, _, units, key) =>
      if key.Some? && key.value in m.settled then m.(origins := origins)
      else Memory(origins, if key.Some? then m.settled + {key.value} else m.settled, m.total + units)
  }

  function MeterAll(prices: PriceBook, exchanges: seq<Completion>): Memory {
    if exchanges == [] then BLANK
    else
      var n := |exchanges| - 1;
      Meter(MeterAll(prices, exchanges[..n]), prices, exchanges[n].call, exchanges[n].body)
  }

  lemma SaturateTwice(a: nat, units: nat)
    ensures Saturate(Saturate(a) + units) == Saturate(a + units)
  {
  }

  lemma MeterPrefix(prices: PriceBook, exchanges: seq<Completion>, n: nat)
    requires n < |exchanges|
    ensures MeterAll(prices, exchanges[..n + 1])
            == Meter(MeterAll(prices, exchanges[..n]), prices, exchanges[n].call, exchanges[n].body)
  {
    assert exchanges[..n + 1][..n] == exchanges[..n];
  }

  /** `TerminalDelivery::bill`. */
  method Bill(prices: PriceBook, exchanges: seq<Completion>) returns (total: u64)
    ensures total == Saturate(MeterAll(prices, exchanges).total)
  {
    var taskOrigins: map<string, Call> := map[];
    var settled: set<string> := {};
    total := 0;
    ghost var m := BLANK;
    for n := 0 to |exchanges|
      invariant m == MeterAll(prices, exchanges[..n])
      invariant taskOrigins == m.origins && settled == m.settled && total == Saturate(m.total)
    {
      MeterPrefix(prices, exchanges, n);
      var call, r := exchanges[n].call, Response(exchanges[n].body);
      ghost var before := m;
      m := Meter(m, prices, call, exchanges[n].body);
      var taskId := TaskIdOf(r);
      if r.resultType.Task? && taskId.Some? && taskId.value !in taskOrigins {
        taskOrigins := taskOrigins[taskId.value := call];
      }
      assert taskOrigins == Commissioned(before, call, r);
      var origin := if taskId.Some? && taskId.value in taskOrigins then Some(taskOrigins[taskId.value]) else None;
      match DecideWithOrigin(call, r, prices, origin) {
        case Billable(_, _, units, key) =>
          SaturateTwice(before.total, units);
          var alreadySettled := key.Some? && key.value in settled;
          if key.Some? {
            settled := settled + {key.value};
          }
          if !alreadySettled {
            total := Saturate(total + units);
          }
        case Free(_) =>
      }
    }
    assert exchanges[..|exchanges|] == exchanges;
  }

  // ---------------------------------------------------------------- the edge on the same exchanges

  /** Modern JSON exchanges of one tenant under one price book, whose polls answer for the task they asked about. */
  predicate Comparable(tenant: string, prices: PriceBook, c: Completion) {
    c.tenant == tenant && c.prices == prices && !c.legacy && !Mismatched(c)
  }

  predicate Positive(prices: PriceBook) {
    && prices.defaultUnits > 0
    && (forall name | name in prices.names :: prices.names[name] > 0)
    && (forall m | m in prices.methods :: prices.methods[m] > 0)
  }

  function EdgeAll(exchanges: seq<Completion>): Shared {
    if exchanges == [] then NOTHING
    else Finish(EdgeAll(exchanges[..|exchanges| - 1]), exchanges[|exchanges| - 1], Start, false)
  }

  /** What one undisturbed completion does, all steps taken together. */
  function Settle(s: Shared, c: Completion): Shared {
    var id := ResponseTaskId(c);
    var commissioned :=
      if id.Some? && Commissions(c, id.value)
          then InsertFirst(s.store, TaskKey(c.tenant, id.value), FromCall(c.call, c.prices))
      else s.store;
    var key := if id.Some? then Some(TaskKey(c.tenant, id.value)) else None;
    var origin := if id.Some? && Claims(c, id.value) && key.value in commissioned then Some(commissioned[key.value])
        else None;
    var verdict := VerdictOf(c, origin);
    if verdict.Billable? then
      RecordUnits(s.(store := if origin.Some? then commissioned - {key.value} else commissioned), c.tenant,
                  verdict.units, verdict.idempotencyKey)
    else
      s.(store := if EndsUndelivered(c) && CleanUpId(c).Some?
         then commissioned - {TaskKey(c.tenant, CleanUpId(c).value)} else commissioned)
  }

  lemma FinishIsSettle(s: Shared, c: Completion)
    requires !Mismatched(c)
    ensures Finish(s, c, Start, false) == Settle(s, c)
  {
    var (s1, p1) := Advance(s, c, Start, false);
    var (s2, p2) := Advance(s1, c, p1, false);
    FromResolved(s1, s2, c, p2);
    assert Finish(s1, c, p1, false) == Finish(s2, c, p2, false);
  }

  /** From the verdict on: a free verdict puts back what was claimed before cleaning up. */
  lemma FromResolved(s1: Shared, s2: Shared, c: Completion, p2: Phase)
    requires !Mismatched(c) && p2.Resolved?
    requires (s2, p2) == Advance(s1, c, Inserted, false)
    ensures var verdict := VerdictOf(c, p2.origin);
            Finish(s2, c, p2, false) ==
            if verdict.Billable? then RecordUnits(s2, c.tenant, verdict.units, verdict.idempotencyKey)
            else if EndsUndelivered(c) && CleanUpId(c).Some?
                 then s1.(store := s1.store - {TaskKey(c.tenant, CleanUpId(c).value)})
            else s1
  {
    var (s3, p3) := Advance(s2, c, p2, false);
    if p3.Done? {
    } else if p3.CleanUp? {
      assert s2.store == s1.store;
      assert Finish(s2, c, CleanUp, false) == Advance(s2, c, CleanUp, false).0;
    } else {
      var id := ResponseTaskId(c).value;
      assert (s1.store - {TaskKey(c.tenant, id)})[TaskKey(c.tenant, id) := s1.store[TaskKey(c.tenant, id)]] == s1.store;
      assert Advance(s2, c, p3, false) == (s1, CleanUp);
      assert Finish(s1, c, CleanUp, false) == Advance(s1, c, CleanUp, false).0;
      assert Finish(s2, c, p3, false) == Finish(s1, c, CleanUp, false);
    }
  }

  // ---------------------------------------------------------------- where the two part

  /** The meter's memory, the tasks commissioned but reported failed or cancelled before delivery, and what the meter
      charged for tasks delivered after such a report. */
  datatype Track = Track(m: Memory, buried: set<string>, revived: nat)

  /** This exchange makes the edge forget the task: a failed or cancelled report that is not itself a direct
      delivery. */
  predicate Forgets(c: Completion, id: string) {
    EndsUndelivered(c) && !DeliversDirectly(c.call, PeekOf(c)) && CleanUpId(c) == Some(id)
  }

  predicate Revives(t: Track, c: Completion) {
    var r := PeekOf(c);
    && TaskIdOf(r).Some? && Delivers(c.call, r, TaskIdOf(r).value)
    && TaskIdOf(r).value in t.buried && TaskIdOf(r).value !in t.m.settled
  }

  function Follow(prices: PriceBook, t: Track, c: Completion): Track {
    var m := Meter(t.m, prices, c.call, c.body);
    Track(m,
          t.buried + if CleanUpId(c).Some? && Forgets(c, CleanUpId(c).value) && CleanUpId(c).value in m.origins
                        && CleanUpId(c).value !in m.settled then {CleanUpId(c).value} else {},
          t.revived + if Revives(t, c) && m.total > t.m.total then m.total - t.m.total else 0)
  }

  function FollowAll(prices: PriceBook, exchanges: seq<Completion>): Track {
    if exchanges == [] then Track(BLANK, {}, 0)
    else Follow(prices, FollowAll(prices, exchanges[..|exchanges| - 1]), exchanges[|exchanges| - 1])
  }

  /** No buried task is ever commissioned again. */
  predicate NoRebirth(prices: PriceBook, exchanges: seq<Completion>) {
    exchanges == []
    || (var n := |exchanges| - 1;
        NoRebirth(prices, exchanges[..n]) && NotReborn(FollowAll(prices, exchanges[..n]), exchanges[n]))
  }

  predicate NotReborn(t: Track, c: Completion) {
    ResponseTaskId(c).Some? && Commissions(c, ResponseTaskId(c).value) ==> ResponseTaskId(c).value !in t.buried
  }

  /** No buried task is ever delivered for the first time. */
  predicate NoRevival(prices: PriceBook, exchanges: seq<Completion>) {
    exchanges == []
    || (var n := |exchanges| - 1;
        NoRevival(prices, exchanges[..n]) && !Revives(FollowAll(prices, exchanges[..n]), exchanges[n]))
  }

  /** How the edge's state stands to the meter's, for one task. */
  predicate AgreesOn(tenant: string, prices: PriceBook, s: Shared, t: Track, id: string) {
    var key := TaskKey(tenant, id);
    if id in t.buried then key !in s.store && key !in s.seen && id in t.m.origins
    else
      && (key in s.seen <==> id in t.m.settled)
      && (id !in t.m.settled ==>
            && (key in s.store <==> id in t.m.origins)
            && (key in s.store ==> s.store[key] == FromCall(t.m.origins[id], prices)))
  }

  lemma PricesArePositive(prices: PriceBook, m: Method, name: Option<string>)
    requires Positive(prices)
    ensures UnitsFor(prices, m, name) > 0
  {
  }

  lemma AgreementOnBuried(tenant: string, prices: PriceBook, s: Shared, t: Track, c: Completion, id: string)
    requires Comparable(tenant, prices, c) && Positive(prices) && NotReborn(t, c)
    requires AgreesOn(tenant, prices, s, t, id) && id in Follow(prices, t, c).buried
    ensures AgreesOn(tenant, prices, Settle(s, c), Follow(prices, t, c), id)
  {
    StoreAfter(s, c);
  }

  lemma AgreementOnLive(tenant: string, prices: PriceBook, s: Shared, t: Track, c: Completion, id: string)
    requires Comparable(tenant, prices, c) && Positive(prices) && NotReborn(t, c)
    requires AgreesOn(tenant, prices, s, t, id) && id !in Follow(prices, t, c).buried
    requires ResponseTaskId(c).Some? ==> AgreesOn(tenant, prices, s, t, ResponseTaskId(c).value)
    ensures AgreesOn(tenant, prices, Settle(s, c), Follow(prices, t, c), id)
  {
    StoreAfter(s, c);
    var r := PeekOf(c);
    var origin := OriginOf(Commissioned(t.m, c.call, r), r);
    if origin.Some? {
      PricesArePositive(prices, origin.value.method_, origin.value.name);
    }
  }

  /** One exchange moves one task; the rest stay as they were. */
  lemma AgreementStep(tenant: string, prices: PriceBook, s: Shared, t: Track, c: Completion, id: string)
    requires Comparable(tenant, prices, c) && Positive(prices) && NotReborn(t, c)
    requires AgreesOn(tenant, prices, s, t, id)
    requires ResponseTaskId(c).Some? ==> AgreesOn(tenant, prices, s, t, ResponseTaskId(c).value)
    ensures AgreesOn(tenant, prices, Settle(s, c), Follow(prices, t, c), id)
  {
    if id in Follow(prices, t, c).buried {
      AgreementOnBuried(tenant, prices, s, t, c, id);
    } else {
      AgreementOnLive(tenant, prices, s, t, c, id);
    }
  }

  lemma UnitsStep(tenant: string, prices: PriceBook, s: Shared, t: Track, c: Completion)
    requires Comparable(tenant, prices, c) && Positive(prices) && NotReborn(t, c)
    requires ResponseTaskId(c).Some? ==> AgreesOn(tenant, prices, s, t, ResponseTaskId(c).value)
    requires s.units + t.revived == t.m.total
    ensures Settle(s, c).units + Follow(prices, t, c).revived == Follow(prices, t, c).m.total
    ensures Follow(prices, t, c).revived > t.revived <==> Revives(t, c)
    ensures Follow(prices, t, c).revived >= t.revived
  {
    var r := PeekOf(c);
    var origins := Commissioned(t.m, c.call, r);
    var origin := OriginOf(origins, r);
    BillsExactlyDelivery(c.call, r, prices, if origin.Some? then Some(ByCall(origin.value)) else None);
    if origin.Some? {
      PricesArePositive(prices, origin.value.method_, origin.value.name);
    }
    PricesArePositive(prices, c.call.method_, c.call.name);
  }

  ghost predicate Agreement(tenant: string, prices: PriceBook, s: Shared, t: Track) {
    s.units + t.revived == t.m.total && forall id :: AgreesOn(tenant, prices, s, t, id)
  }

  lemma AgreementKept(tenant: string, prices: PriceBook, s: Shared, t: Track, c: Completion, s': Shared, t': Track)
    requires Comparable(tenant, prices, c) && Positive(prices) && NotReborn(t, c) && Agreement(tenant, prices, s, t)
    requires s' == Finish(s, c, Start, false) && t' == Follow(prices, t, c)
    ensures Agreement(tenant, prices, s', t')
    ensures t'.revived >= t.revived && (t'.revived > t.revived <==> Revives(t, c))
  {
    FinishIsSettle(s, c);
    UnitsStep(tenant, prices, s, t, c);
    forall id ensures AgreesOn(tenant, prices, s', t', id) {
      AgreementStep(tenant, prices, s, t, c, id);
    }
  }

  lemma {:induction false} AgreementAll(tenant: string, prices: PriceBook, exchanges: seq<Completion>)
    requires forall c | c in exchanges :: Comparable(tenant, prices, c)
    requires Positive(prices) && NoRebirth(prices, exchanges)
    ensures Agreement(tenant, prices, EdgeAll(exchanges), FollowAll(prices, exchanges))
    ensures FollowAll(prices, exchanges).revived == 0 <==> NoRevival(prices, exchanges)
  {
    if exchanges != [] {
      var n := |exchanges| - 1;
      var s, t := EdgeAll(exchanges[..n]), FollowAll(prices, exchanges[..n]);
      AgreementAll(tenant, prices, exchanges[..n]);
      AgreementKept(tenant, prices, s, t, exchanges[n], EdgeAll(exchanges), FollowAll(prices, exchanges));
    }
  }

  lemma {:induction false} FollowsTheMeter(prices: PriceBook, exchanges: seq<Completion>)
    ensures FollowAll(prices, exchanges).m == MeterAll(prices, exchanges)
  {
    if exchanges != [] {
      FollowsTheMeter(prices, exchanges[..|exchanges| - 1]);
    }
  }

  /** The edge invoices what the reference meter invoices, exactly when no task is delivered after it was reported
      failed or cancelled; and it never invoices more. */
  lemma EdgeEqualsMeterExactly(tenant: string, prices: PriceBook, exchanges: seq<Completion>)
    requires forall c | c in exchanges :: Comparable(tenant, prices, c)
    requires Positive(prices) && NoRebirth(prices, exchanges)
    ensures EdgeAll(exchanges).units <= MeterAll(prices, exchanges).total
    ensures EdgeAll(exchanges).units == MeterAll(prices, exchanges).total <==> NoRevival(prices, exchanges)
  {
    AgreementAll(tenant, prices, exchanges);
    FollowsTheMeter(prices, exchanges);
  }

  function TaskBody(resultType: string, status: string): Value {
    Object(map["result" := Object(map["resultType" := Str(resultType), "taskId" := Str("t"), "status" := Str(status)])])
  }

  function Exchange(tenant: string, prices: PriceBook, m: Method, resultType: string, status: string): Completion {
    Completion(tenant, prices, Call(m, None), TaskBody(resultType, status), false,
               if m.TasksGet? then Some("t") else None)
  }

  lemma ExchangeForm(tenant: string, prices: PriceBook, m: Method, resultType: string, status: string)
    ensures var c := Exchange(tenant, prices, m, resultType, status);
            PeekOf(c) == ResponsePeek(ParseResultType(Some(resultType)), false,
                                      Some(TaskPeek(Some("t"), ParseStatus(status))))
  {
    var body := TaskBody(resultType, status);
    var result := body.Get("result").value;
    assert body.Get("error") == None;
    assert result.Get("taskId") == Some(Str("t")) && result.Get("status") == Some(Str(status));
    assert result.Get("resultType") == Some(Str(resultType));
  }

  lemma ExchangeCompares(tenant: string, prices: PriceBook, m: Method, resultType: string, status: string)
    ensures Comparable(tenant, prices, Exchange(tenant, prices, m, resultType, status))
  {
    ExchangeForm(tenant, prices, m, resultType, status);
  }

  lemma CommissionStep(tenant: string, prices: PriceBook)
    ensures var c := Exchange(tenant, prices, ToolsCall, "task", "working");
            && Settle(NOTHING, c) == Shared(map[TaskKey(tenant, "t") := FromCall(c.call, prices)], {}, 0)
            && Meter(BLANK, prices, c.call, c.body) == Memory(map["t" := c.call], {}, 0)
  {
    ExchangeForm(tenant, prices, ToolsCall, "task", "working");
  }

  lemma FailedPollStep(tenant: string, prices: PriceBook, origin: Call)
    ensures var c := Exchange(tenant, prices, TasksGet, "complete", "failed");
            && Settle(Shared(map[TaskKey(tenant, "t") := FromCall(origin, prices)], {}, 0), c) == NOTHING
            && Meter(Memory(map["t" := origin], {}, 0), prices, c.call, c.body) == Memory(map["t" := origin], {}, 0)
  {
    ExchangeForm(tenant, prices, TasksGet, "complete", "failed");
  }

  lemma LatePollStep(tenant: string, prices: PriceBook, origin: Call)
    ensures var c := Exchange(tenant, prices, TasksGet, "complete", "completed");
            && Settle(NOTHING, c) == NOTHING
            && Meter(Memory(map["t" := origin], {}, 0), prices, c.call, c.body).total
                 == UnitsFor(prices, origin.method_, origin.name)
  {
    ExchangeForm(tenant, prices, TasksGet, "complete", "completed");
  }

  lemma OneMore(prices: PriceBook, exchanges: seq<Completion>, c: Completion)
    requires !Mismatched(c)
    ensures EdgeAll(exchanges + [c]) == Settle(EdgeAll(exchanges), c)
    ensures MeterAll(prices, exchanges + [c]) == Meter(MeterAll(prices, exchanges), prices, c.call, c.body)
  {
    FinishIsSettle(EdgeAll(exchanges), c);
    assert (exchanges + [c])[..|exchanges|] == exchanges;
  }

  /** Where they part, concretely: a task commissioned, polled as failed, then polled as completed. The meter charges it
      and the edge, which forgot it at the failure, does not. */
  lemma LateDeliveryIsUnbilled(tenant: string, prices: PriceBook) returns (exchanges: seq<Completion>)
    requires Positive(prices)
    ensures forall c | c in exchanges :: Comparable(tenant, prices, c)
    ensures EdgeAll(exchanges).units == 0 && MeterAll(prices, exchanges).total > 0
  {
    var born := Exchange(tenant, prices, ToolsCall, "task", "working");
    var failed := Exchange(tenant, prices, TasksGet, "complete", "failed");
    var late := Exchange(tenant, prices, TasksGet, "complete", "completed");
    ExchangeCompares(tenant, prices, ToolsCall, "task", "working");
    ExchangeCompares(tenant, prices, TasksGet, "complete", "failed");
    ExchangeCompares(tenant, prices, TasksGet, "complete", "completed");
    CommissionStep(tenant, prices);
    FailedPollStep(tenant, prices, born.call);
    LatePollStep(tenant, prices, born.call);
    PricesArePositive(prices, ToolsCall, None);
    exchanges := [] + [born] + [failed] + [late];
    ThreeExchanges(prices, born, failed, late);
  }

  lemma ThreeExchanges(prices: PriceBook, a: Completion, b: Completion, c: Completion)
    requires !Mismatched(a) && !Mismatched(b) && !Mismatched(c)
    ensures EdgeAll([] + [a] + [b] + [c]) == Settle(Settle(Settle(NOTHING, a), b), c)
    ensures MeterAll(prices, [] + [a] + [b] + [c])
            == Meter(Meter(Meter(BLANK, prices, a.call, a.body), prices, b.call, b.body), prices, c.call, c.body)
    ensures forall e | e in [] + [a] + [b] + [c] :: e == a || e == b || e == c
  {
    OneMore(prices, [], a);
    OneMore(prices, [] + [a], b);
    OneMore(prices, [] + [a] + [b], c);
  }

  /** A plain reading of the traffic that is enough: nothing is commissioned or completed after its failure was
      reported. */
  ghost predicate FailuresAreFinal(exchanges: seq<Completion>) {
    forall i, j, id | 0 <= i < j < |exchanges| && CleanUpId(exchanges[i]) == Some(id) && Forgets(exchanges[i], id) ::
      !Commissions(exchanges[j], id) && !Claims(exchanges[j], id)
  }

  lemma {:induction false} BuriedWasReported(prices: PriceBook, exchanges: seq<Completion>, id: string)
    requires id in FollowAll(prices, exchanges).buried
    ensures exists i | 0 <= i < |exchanges| :: CleanUpId(exchanges[i]) == Some(id) && Forgets(exchanges[i], id)
  {
    var n := |exchanges| - 1;
    if id in FollowAll(prices, exchanges[..n]).buried {
      BuriedWasReported(prices, exchanges[..n], id);
      var i :| 0 <= i < n && CleanUpId(exchanges[..n][i]) == Some(id) && Forgets(exchanges[..n][i], id);
      assert CleanUpId(exchanges[i]) == Some(id) && Forgets(exchanges[i], id);
    } else {
      assert CleanUpId(exchanges[n]) == Some(id) && Forgets(exchanges[n], id);
    }
  }

  lemma {:induction false} FinalFailures(prices: PriceBook, exchanges: seq<Completion>)
    requires FailuresAreFinal(exchanges)
    ensures NoRebirth(prices, exchanges) && NoRevival(prices, exchanges)
  {
    if exchanges != [] {
      var n := |exchanges| - 1;
      var init, c := exchanges[..n], exchanges[n];
      FinalFailures(prices, init);
      if ResponseTaskId(c).Some? && ResponseTaskId(c).value in FollowAll(prices, init).buried {
        var id := ResponseTaskId(c).value;
        BuriedWasReported(prices, init, id);
        var i :| 0 <= i < n && CleanUpId(init[i]) == Some(id) && Forgets(init[i], id);
        assert CleanUpId(exchanges[i]) == Some(id) && Forgets(exchanges[i], id);
        assert !Commissions(c, id) && !Claims(c, id);
      }
    }
  }

  lemma FinalFailuresSuffice(tenant: string, prices: PriceBook, exchanges: seq<Completion>)
    requires forall c | c in exchanges :: Comparable(tenant, prices, c)
    requires Positive(prices) && FailuresAreFinal(exchanges)
    ensures EdgeAll(exchanges).units == MeterAll(prices, exchanges).total
  {
    FinalFailures(prices, exchanges);
    EdgeEqualsMeterExactly(tenant, prices, exchanges);
  }

  // ---------------------------------------------------------------- tasks commissioned again

  /** The meter's memory, and the commission of each task that the traffic has left standing: the first one since the
      task was last delivered or reported failed or cancelled. */
  datatype Standing = Standing(m: Memory, kept: map<string, Call>)

  function Commission(kept: map<string, Call>, c: Completion): map<string, Call> {
    var id := ResponseTaskId(c);
    if id.Some? && Commissions(c, id.value) && id.value !in kept then kept[id.value := c.call] else kept
  }

  /** The task an exchange takes off the edge's books: one it delivers, or one it reports failed or cancelled. */
  function Closes(c: Completion): Option<string> {
    if ResponseTaskId(c).Some? && Delivers(c.call, PeekOf(c), ResponseTaskId(c).value) then ResponseTaskId(c)
    else if CleanUpId(c).Some? && Forgets(c, CleanUpId(c).value) then CleanUpId(c)
    else None
  }

  function Stand(prices: PriceBook, t: Standing, c: Completion): Standing {
    var kept := Commission(t.kept, c);
    Standing(Meter(t.m, prices, c.call, c.body), if Closes(c).Some? then kept - {Closes(c).value} else kept)
  }

  function StandAll(prices: PriceBook, exchanges: seq<Completion>): Standing {
    if exchanges == [] then Standing(BLANK, map[])
    else Stand(prices, StandAll(prices, exchanges[..|exchanges| - 1]), exchanges[|exchanges| - 1])
  }

  /** A task delivered for the first time is priced by its standing commission as it was by its first. */
  predicate PricedAlike(prices: PriceBook, t: Standing, c: Completion) {
    var id := ResponseTaskId(c);
    id.Some? && Delivers(c.call, PeekOf(c), id.value) && id.value in t.m.origins && id.value !in t.m.settled ==>
      && id.value in t.kept
      && UnitsFor(prices, t.kept[id.value].method_, t.kept[id.value].name)
         == UnitsFor(prices, t.m.origins[id.value].method_, t.m.origins[id.value].name)
  }

  predicate AlwaysPricedAlike(prices: PriceBook, exchanges: seq<Completion>) {
    exchanges == []
    || (var n := |exchanges| - 1;
        AlwaysPricedAlike(prices, exchanges[..n])
            && PricedAlike(prices, StandAll(prices, exchanges[..n]), exchanges[n]))
  }

  /** After every exchange the edge has recorded what the meter has billed. */
  predicate InStep(prices: PriceBook, exchanges: seq<Completion>) {
    exchanges == []
    || (InStep(prices, exchanges[..|exchanges| - 1]) && EdgeAll(exchanges).units == MeterAll(prices, exchanges).total)
  }

  /** The store holds exactly the standing commissions, already priced; what stands was commissioned first by
      someone. */
  predicate Keeps(tenant: string, prices: PriceBook, s: Shared, t: Standing, id: string) {
    var key := TaskKey(tenant, id);
    && (key in s.store <==> id in t.kept)
    && (id in t.kept ==> s.store[key] == FromCall(t.kept[id], prices) && id in t.m.origins)
  }

  /** While the two are in step, the recorder has seen exactly the settled tasks. */
  predicate SeesSettled(tenant: string, s: Shared, t: Standing, id: string) {
    TaskKey(tenant, id) in s.seen <==> id in t.m.settled
  }

  function PricingOf(origin: Option<Attribution>): Option<TaskPricing> {
    if origin.Some? then Some(ByAttribution(origin.value)) else None
  }

  /** What an exchange does to the edge's store. */
  lemma StoreAfter(s: Shared, c: Completion)
    requires !Mismatched(c)
    ensures var id := ResponseTaskId(c);
            var commissioned :=
              if id.Some? && Commissions(c, id.value)
                  then InsertFirst(s.store, TaskKey(c.tenant, id.value), FromCall(c.call, c.prices))
              else s.store;
            Settle(s, c).store == if Closes(c).Some? then commissioned - {TaskKey(c.tenant, Closes(c).value)}
                else commissioned
  {
    var r := PeekOf(c);
    var id := ResponseTaskId(c);
    var commissioned :=
      if id.Some? && Commissions(c, id.value)
          then InsertFirst(s.store, TaskKey(c.tenant, id.value), FromCall(c.call, c.prices))
      else s.store;
    var origin := if id.Some? && Claims(c, id.value) && TaskKey(c.tenant, id.value) in commissioned
                  then Some(commissioned[TaskKey(c.tenant, id.value)]) else None;
    BillsExactlyDelivery(c.call, r, c.prices, PricingOf(origin));
    assert VerdictOf(c, origin) == Decide(c.call, r, c.prices, PricingOf(origin));
  }

  lemma KeepsStep(tenant: string, prices: PriceBook, s: Shared, t: Standing, c: Completion, id: string)
    requires Comparable(tenant, prices, c) && Keeps(tenant, prices, s, t, id)
    ensures Keeps(tenant, prices, Settle(s, c), Stand(prices, t, c), id)
  {
    StoreAfter(s, c);
    assert t.m.origins.Keys <= Meter(t.m, prices, c.call, c.body).origins.Keys;
  }

  /** One exchange moves both totals by the same amount exactly when it is priced alike. */
  lemma TotalsStep(tenant: string, prices: PriceBook, s: Shared, t: Standing, c: Completion)
    requires Comparable(tenant, prices, c) && Positive(prices)
    requires ResponseTaskId(c).Some? ==>
               Keeps(tenant, prices, s, t, ResponseTaskId(c).value)
                   && SeesSettled(tenant, s, t, ResponseTaskId(c).value)
    ensures Settle(s, c).units - s.units == Stand(prices, t, c).m.total - t.m.total <==> PricedAlike(prices, t, c)
  {
  }

  lemma SeenStep(tenant: string, prices: PriceBook, s: Shared, t: Standing, c: Completion, id: string)
    requires Comparable(tenant, prices, c) && Positive(prices) && PricedAlike(prices, t, c)
             && SeesSettled(tenant, s, t, id)
    requires ResponseTaskId(c).Some? ==> Keeps(tenant, prices, s, t, ResponseTaskId(c).value)
    ensures SeesSettled(tenant, Settle(s, c), Stand(prices, t, c), id)
  {
  }

  ghost predicate KeepsAll(tenant: string, prices: PriceBook, s: Shared, t: Standing) {
    forall id :: Keeps(tenant, prices, s, t, id)
  }

  ghost predicate SeesAll(tenant: string, s: Shared, t: Standing) {
    forall id :: SeesSettled(tenant, s, t, id)
  }

  lemma StandingStep(tenant: string, prices: PriceBook, s: Shared, t: Standing, c: Completion, s': Shared, t': Standing)
    requires Comparable(tenant, prices, c) && Positive(prices) && KeepsAll(tenant, prices, s, t)
    requires s' == Finish(s, c, Start, false) && t' == Stand(prices, t, c)
    ensures KeepsAll(tenant, prices, s', t')
    ensures SeesAll(tenant, s, t) ==>
              && (s'.units - s.units == t'.m.total - t.m.total <==> PricedAlike(prices, t, c))
              && (PricedAlike(prices, t, c) ==> SeesAll(tenant, s', t'))
  {
    FinishIsSettle(s, c);
    forall id ensures Keeps(tenant, prices, s', t', id) {
      KeepsStep(tenant, prices, s, t, c, id);
    }
    if SeesAll(tenant, s, t) {
      TotalsStep(tenant, prices, s, t, c);
      if PricedAlike(prices, t, c) {
        forall id ensures SeesSettled(tenant, s', t', id) {
          SeenStep(tenant, prices, s, t, c, id);
        }
      }
    }
  }

  lemma {:induction false} StandsWithTheMeter(prices: PriceBook, exchanges: seq<Completion>)
    ensures StandAll(prices, exchanges).m == MeterAll(prices, exchanges)
  {
    if exchanges != [] {
      StandsWithTheMeter(prices, exchanges[..|exchanges| - 1]);
    }
  }

  lemma {:induction false} StandingAll(tenant: string, prices: PriceBook, exchanges: seq<Completion>)
    requires Positive(prices) && forall c | c in exchanges :: Comparable(tenant, prices, c)
    ensures KeepsAll(tenant, prices, EdgeAll(exchanges), StandAll(prices, exchanges))
    ensures InStep(prices, exchanges) <==> AlwaysPricedAlike(prices, exchanges)
    ensures InStep(prices, exchanges) ==> SeesAll(tenant, EdgeAll(exchanges), StandAll(prices, exchanges))
    ensures InStep(prices, exchanges) ==> EdgeAll(exchanges).units == StandAll(prices, exchanges).m.total
  {
    if exchanges != [] {
      var n := |exchanges| - 1;
      StandingAll(tenant, prices, exchanges[..n]);
      StandsWithTheMeter(prices, exchanges);
      StandingStep(tenant, prices, EdgeAll(exchanges[..n]), StandAll(prices, exchanges[..n]), exchanges[n],
                   EdgeAll(exchanges), StandAll(prices, exchanges));
    }
  }

  /** On all traffic, tasks commissioned again included: the edge has recorded what the meter has billed after every
      exchange exactly when each first delivery is priced by a standing commission as it was by the first. */
  lemma InStepExactly(tenant: string, prices: PriceBook, exchanges: seq<Completion>)
    requires Positive(prices) && forall c | c in exchanges :: Comparable(tenant, prices, c)
    ensures (forall n | 0 <= n <= |exchanges| ::
               EdgeAll(exchanges[..n]).units == MeterAll(prices, exchanges[..n]).total)
            <==> AlwaysPricedAlike(prices, exchanges)
  {
    StandingAll(tenant, prices, exchanges);
    InStepAtEvery(prices, exchanges);
  }

  lemma {:induction false} InStepAtEvery(prices: PriceBook, exchanges: seq<Completion>)
    ensures InStep(prices, exchanges) <==>
            forall n | 0 <= n <= |exchanges| :: EdgeAll(exchanges[..n]).units == MeterAll(prices, exchanges[..n]).total
  {
    assert exchanges[..|exchanges|] == exchanges;
    if exchanges != [] {
      var init := exchanges[..|exchanges| - 1];
      InStepAtEvery(prices, init);
      assert forall n | 0 <= n <= |init| :: init[..n] == exchanges[..n];
      assert forall n | 0 <= n <= |exchanges| :: n <= |init| || exchanges[..n] == exchanges;
    }
  }

  /** A task commissioned by one call, reported failed, commissioned again by another, and delivered: the edge
      charges the second call's price and the meter the first's. */
  lemma RebirthInvoices(tenant: string, prices: PriceBook) returns (exchanges: seq<Completion>)
    ensures forall c | c in exchanges :: Comparable(tenant, prices, c)
    ensures EdgeAll(exchanges).units == UnitsFor(prices, ResourcesRead, None)
    ensures MeterAll(prices, exchanges).total == UnitsFor(prices, ToolsCall, None)
  {
    var born := Exchange(tenant, prices, ToolsCall, "task", "working");
    var failed := Exchange(tenant, prices, TasksGet, "complete", "failed");
    var again := Exchange(tenant, prices, ResourcesRead, "task", "working");
    var late := Exchange(tenant, prices, TasksGet, "complete", "completed");
    ExchangeCompares(tenant, prices, ToolsCall, "task", "working");
    ExchangeCompares(tenant, prices, TasksGet, "complete", "failed");
    ExchangeCompares(tenant, prices, ResourcesRead, "task", "working");
    ExchangeCompares(tenant, prices, TasksGet, "complete", "completed");
    CommissionStep(tenant, prices);
    FailedPollStep(tenant, prices, born.call);
    SecondCommissionStep(tenant, prices, born.call);
    SecondDeliveryStep(tenant, prices, born.call, again.call);
    exchanges := [] + [born] + [failed] + [again] + [late];
    FourExchanges(prices, born, failed, again, late);
  }

  lemma FourExchanges(prices: PriceBook, a: Completion, b: Completion, c: Completion, d: Completion)
    requires !Mismatched(a) && !Mismatched(b) && !Mismatched(c) && !Mismatched(d)
    ensures EdgeAll([] + [a] + [b] + [c] + [d]) == Settle(Settle(Settle(Settle(NOTHING, a), b), c), d)
    ensures MeterAll(prices, [] + [a] + [b] + [c] + [d])
            == Meter(Meter(Meter(Meter(BLANK, prices, a.call, a.body), prices, b.call, b.body), prices, c.call, c.body),
                     prices, d.call, d.body)
    ensures forall e | e in [] + [a] + [b] + [c] + [d] :: e == a || e == b || e == c || e == d
  {
    ThreeExchanges(prices, a, b, c);
    OneMore(prices, [] + [a] + [b] + [c], d);
  }

  /** So where the second price is higher the edge invoices more. */
  lemma RebirthOverbills(tenant: string) returns (prices: PriceBook, exchanges: seq<Completion>)
    ensures Positive(prices) && forall c | c in exchanges :: Comparable(tenant, prices, c)
    ensures EdgeAll(exchanges).units > MeterAll(prices, exchanges).total
  {
    prices := PriceBook(1, map[], map[ResourcesRead := 5]);
    exchanges := RebirthInvoices(tenant, prices);
  }

  lemma SecondCommissionStep(tenant: string, prices: PriceBook, origin: Call)
    ensures var c := Exchange(tenant, prices, ResourcesRead, "task", "working");
            && Settle(NOTHING, c) == Shared(map[TaskKey(tenant, "t") := FromCall(c.call, prices)], {}, 0)
            && Meter(Memory(map["t" := origin], {}, 0), prices, c.call, c.body) == Memory(map["t" := origin], {}, 0)
  {
    ExchangeForm(tenant, prices, ResourcesRead, "task", "working");
  }

  lemma SecondDeliveryStep(tenant: string, prices: PriceBook, first: Call, second: Call)
    ensures var c := Exchange(tenant, prices, TasksGet, "complete", "completed");
            && Settle(Shared(map[TaskKey(tenant, "t") := FromCall(second, prices)], {}, 0), c).units
               == UnitsFor(prices, second.method_, second.name)
            && Meter(Memory(map["t" := first], {}, 0), prices, c.call, c.body).total
                 == UnitsFor(prices, first.method_, first.name)
  {
    ExchangeForm(tenant, prices, TasksGet, "complete", "completed");
  }
}
