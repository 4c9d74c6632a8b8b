/** `Completion::finish` as its atomic steps, run by any number of instances over one attribution store and recorder. */
module TerminalAccounting {
  import opened Prelude
  import opened Peek
  import opened Charge

  datatype TaskKey = TaskKey(tenant: string, id: string)

  /** What one finished exchange carries into accounting. */
  datatype Completion = Completion(tenant: string, prices: PriceBook, call: Call, body: Value, legacy: bool,
                                   requestedTaskId: Option<string>)

  function PeekOf(c: Completion): ResponsePeek {
    if c.legacy then WithLegacyDelivery(Response(c.body), c.call.method_) else Response(c.body)
  }

  function ResponseTaskId(c: Completion): Option<string> {
    var r := PeekOf(c);
    if r.task.Some? then r.task.value.taskId else None
  }

  /** Which store operation comes next. */
  datatype Phase =
    | Start
    | Inserted
    | Resolved(origin: Option<Attribution>)
    | PutBack(held: Attribution, thenCleanUp: bool)
    | CleanUp
    | Done

  /** The shared state: stored attributions, settled keys, and units recorded. */
  datatype Shared = Shared(store: map<TaskKey, Attribution>, seen: set<TaskKey>, units: nat)

  const NOTHING := Shared(map[], {}, 0)

  /** A store keeps the first attribution of a task. */
  function InsertFirst(store: map<TaskKey, Attribution>, key: TaskKey, a: Attribution): map<TaskKey, Attribution> {
    if key in store then store else store[key := a]
  }

  /** The recorder: zero units are not recorded, and a settled key is recorded once. */
  function RecordUnits(s: Shared, tenant: string, units: nat, key: Option<string>): Shared {
    if units == 0 || (key.Some? && TaskKey(tenant, key.value) in s.seen) then s
    else s.(units := s.units + units, seen := if key.Some? then s.seen + {TaskKey(tenant, key.value)} else s.seen)
  }

  predicate Mismatched(c: Completion) {
    c.call.method_.TasksGet? && c.requestedTaskId.Some? && ResponseTaskId(c).Some?
        && c.requestedTaskId != ResponseTaskId(c)
  }

  /** This exchange commissions a task under `id`. */
  predicate Commissions(c: Completion, id: string) {
    PeekOf(c).resultType.Task? && ResponseTaskId(c) == Some(id)
  }

  /** This exchange reports the task `id` completed, so accounting claims its attribution first. */
  predicate Claims(c: Completion, id: string) {
    var r := PeekOf(c);
    c.call.method_.TasksGet? && !r.isError && r.task.Some? && r.task.value.status.Completed?
        && r.task.value.taskId == Some(id)
  }

  predicate EndsUndelivered(c: Completion) {
    var r := PeekOf(c);
    r.task.Some? && r.task.value.status.IsTerminal() && !r.task.value.status.Completed?
  }

  function CleanUpId(c: Completion): Option<string> {
    if ResponseTaskId(c).Some? then ResponseTaskId(c) else c.requestedTaskId
  }

  function VerdictOf(c: Completion, origin: Option<Attribution>): Verdict {
    DecideWithAttribution(c.call, PeekOf(c), c.prices, origin)
  }

  /** One atomic step. `recorderFails` is consulted only where usage is recorded. */
  function Advance(s: Shared, c: Completion, phase: Phase, recorderFails: bool): (Shared, Phase) {
    var id := ResponseTaskId(c);
    match phase
    case Start =>
      if Mismatched(c) then (s, Done)
      else if id.Some? && Commissions(c, id.value) then
        (s.(store := InsertFirst(s.store, TaskKey(c.tenant, id.value), FromCall(c.call, c.prices))), Inserted)
      else (s, Inserted)
    case Inserted =>
      if id.Some? && Claims(c, id.value) then
        var key := TaskKey(c.tenant, id.value);
        if key in s.store then (s.(store := s.store - {key}), Resolved(Some(s.store[key]))) else (s, Resolved(None))
      else (s, Resolved(None))
    case Resolved(origin) =>
      (match VerdictOf(c, origin)
       case Billable(_, _, units, key) =>
         if !recorderFails then (RecordUnits(s, c.tenant, units, key), Done)
         else if id.Some? && origin.Some? then (s, PutBack(origin.value, false))
         else (s, Done)
       case Free(_) =>
         if id.Some? && origin.Some? then (s, PutBack(origin.value, true)) else (s, CleanUp))
    case PutBack(origin, thenCleanUp) =>
      (if id.Some? then s.(store := InsertFirst(s.store, TaskKey(c.tenant, id.value), origin)) else s,
       if thenCleanUp then CleanUp else Done)
    case CleanUp =>
      (if EndsUndelivered(c) && CleanUpId(c).Some? then s.(store := s.store - {TaskKey(c.tenant, CleanUpId(c).value)})
       else s, Done)
    case Done => (s, Done)
  }

  function Remaining(phase: Phase): nat {
    match phase
    case Start => 5
    case Inserted => 4
    case Resolved(_) => 3
    case PutBack(_, _) => 2
    case CleanUp => 1
    case Done => 0
  }

  /** A completion that runs with nothing in between. */
  function Finish(s: Shared, c: Completion, phase: Phase, recorderFails: bool): Shared
    decreases Remaining(phase)
  {
    if phase.Done? then s
    else
      var (s', phase') := Advance(s, c, phase, recorderFails);
      Finish(s', c, phase', recorderFails)
  }

  // ---------------------------------------------------------------- attributions are conserved

  /** One commissioned price. */
  datatype Token = Token(key: TaskKey, attribution: Attribution)

  datatype Worker = Worker(completion: Completion, phase: Phase)

  /** `created` and `consumed` are history: attributions that entered the store as new, and those the recorder
      accepted. */
  datatype Edge = Edge(shared: Shared, workers: seq<Worker>, created: seq<Token>, consumed: seq<Token>)

  datatype Step =
    | Arrive(completion: Completion)
    | Work(worker: nat, recorderFails: bool)
    | Crash(worker: nat)
    | Evict(key: TaskKey)
    | ClaimReplyLost(worker: nat)
    | StoreFails(worker: nat)

  const QUIET := Edge(NOTHING, [], [], [])

  /** The attribution a worker has taken out of the store and not yet settled. */
  function HeldBy(w: Worker): Option<Token> {
    var id := ResponseTaskId(w.completion);
    if id.None? then None
    else
      match w.phase
      case Resolved(origin) => if origin.Some? then Some(Token(TaskKey(w.completion.tenant, id.value), origin.value))
           else None
      case PutBack(origin, _) => Some(Token(TaskKey(w.completion.tenant, id.value), origin))
      case _ => None
  }

  function CreatedBy(s: Shared, c: Completion, phase: Phase): Option<Token> {
    var id := ResponseTaskId(c);
    if phase.Start? && !Mismatched(c) && id.Some? && Commissions(c, id.value) && TaskKey(c.tenant, id.value) !in s.store
    then Some(Token(TaskKey(c.tenant, id.value), FromCall(c.call, c.prices))) else None
  }

  /** An accepted charge consumes the attribution it was priced from. */
  function ConsumedBy(c: Completion, phase: Phase, recorderFails: bool): Option<Token> {
    var id := ResponseTaskId(c);
    if phase.Resolved? && phase.origin.Some? && id.Some? && VerdictOf(c, phase.origin).Billable? && !recorderFails
    then Some(Token(TaskKey(c.tenant, id.value), phase.origin.value)) else None
  }

  function Is(o: Option<Token>, t: Token): nat {
    if o == Some(t) then 1 else 0
  }

  function Stored(store: map<TaskKey, Attribution>, t: Token): nat {
    if t.key in store && store[t.key] == t.attribution then 1 else 0
  }

  function Held(workers: seq<Worker>, t: Token): nat {
    if workers == [] then 0 else Held(workers[..|workers| - 1], t) + Is(HeldBy(workers[|workers| - 1]), t)
  }

  function Times(tokens: seq<Token>, t: Token): nat {
    multiset(tokens)[t]
  }

  function Note(tokens: seq<Token>, o: Option<Token>): seq<Token> {
    if o.Some? then tokens + [o.value] else tokens
  }

  predicate Enabled(e: Edge, step: Step) {
    match step
    case Arrive(_) => true
    case Work(i, _) => i < |e.workers|
    case Crash(i) => i < |e.workers|
    case Evict(_) => true
    case ClaimReplyLost(i) => i < |e.workers| && e.workers[i].phase.Inserted?
    case StoreFails(i) => i < |e.workers| && !e.workers[i].phase.Resolved?
  }

  /** Where accounting goes on when a store operation answered with an error and did nothing. */
  function AfterStoreError(c: Completion, phase: Phase): Phase {
    match phase
    case Start => if Mismatched(c) then Done else Inserted
    case Inserted => Resolved(None)
    case Resolved(_) => phase
    case PutBack(_, thenCleanUp) => if thenCleanUp then CleanUp else Done
    case CleanUp => Done
    case Done => Done
  }

  function Apply(e: Edge, step: Step): Edge
    requires Enabled(e, step)
  {
    match step
    case Arrive(c) => e.(workers := e.workers + [Worker(c, Start)])
    case Work(i, fails) =>
      var w := e.workers[i];
      var (shared, phase) := Advance(e.shared, w.completion, w.phase, fails);
      Edge(shared, e.workers[i := w.(phase := phase)],
           Note(e.created, CreatedBy(e.shared, w.completion, w.phase)),
           Note(e.consumed, ConsumedBy(w.completion, w.phase, fails)))
    case Crash(i) => e.(workers := e.workers[i := e.workers[i].(phase := Done)])
    case Evict(key) => e.(shared := e.shared.(store := e.shared.store - {key}))
    case ClaimReplyLost(i) =>
      // The store took the attribution out, but the answer never came: accounting goes on without it.
      var w := e.workers[i];
      e.(shared := Advance(e.shared, w.completion, w.phase, false).0,
         workers := e.workers[i := w.(phase := Resolved(None))])
    case StoreFails(i) =>
      var w := e.workers[i];
      e.(workers := e.workers[i := w.(phase := AfterStoreError(w.completion, w.phase))])
  }

  ghost function Run(steps: seq<Step>): Option<Edge> {
    if steps == [] then Some(QUIET)
    else
      var before := Run(steps[..|steps| - 1]);
      if before.Some? && Enabled(before.value, steps[|steps| - 1]) then Some(Apply(before.value, steps[|steps| - 1]))
          else None
  }

  /** What is stored, held by a worker, or already charged was created, as often and at that price. */
  predicate Conserved(e: Edge, t: Token) {
    Stored(e.shared.store, t) + Held(e.workers, t) + Times(e.consumed, t) <= Times(e.created, t)
  }

  lemma {:induction false} HeldUpdate(workers: seq<Worker>, i: nat, w: Worker, t: Token)
    requires i < |workers|
    ensures Held(workers[i := w], t) + Is(HeldBy(workers[i]), t) == Held(workers, t) + Is(HeldBy(w), t)
  {
    var n := |workers| - 1;
    var updated := workers[i := w];
    if i < n {
      HeldUpdate(workers[..n], i, w, t);
      assert updated[..n] == workers[..n][i := w] && updated[n] == workers[n];
    } else {
      assert updated[..n] == workers[..n];
    }
  }

  lemma NoteCounts(tokens: seq<Token>, o: Option<Token>, t: Token)
    ensures Times(Note(tokens, o), t) == Times(tokens, t) + Is(o, t)
  {
  }

  /** A step of one worker moves attributions about and never makes one, except where a task is commissioned. */
  lemma AdvanceConserves(s: Shared, c: Completion, phase: Phase, fails: bool, t: Token)
    ensures var (s', phase') := Advance(s, c, phase, fails);
            Stored(s'.store, t) + Is(HeldBy(Worker(c, phase')), t) + Is(ConsumedBy(c, phase, fails), t)
            <= Stored(s.store, t) + Is(HeldBy(Worker(c, phase)), t) + Is(CreatedBy(s, c, phase), t)
  {
  }

  lemma WorkConserves(e: Edge, i: nat, fails: bool, t: Token)
    requires Conserved(e, t) && i < |e.workers|
    ensures Conserved(Apply(e, Work(i, fails)), t)
  {
    var e' := Apply(e, Work(i, fails));
    var w := e.workers[i];
    AdvanceConserves(e.shared, w.completion, w.phase, fails, t);
    HeldUpdate(e.workers, i, e'.workers[i], t);
    NoteCounts(e.created, CreatedBy(e.shared, w.completion, w.phase), t);
    NoteCounts(e.consumed, ConsumedBy(w.completion, w.phase, fails), t);
  }

  /** A worker that lets go, while the store does not grow, keeps the balance. */
  lemma LettingGoConserves(e: Edge, e': Edge, i: nat, w: Worker, t: Token)
    requires Conserved(e, t) && i < |e.workers|
    requires e'.workers == e.workers[i := w] && HeldBy(w).None? && e'.created == e.created && e'.consumed == e.consumed
    requires Stored(e'.shared.store, t) <= Stored(e.shared.store, t)
    ensures Conserved(e', t)
  {
    HeldUpdate(e.workers, i, w, t);
  }

  lemma ArrivalConserves(e: Edge, e': Edge, c: Completion, t: Token)
    requires Conserved(e, t) && e' == e.(workers := e.workers + [Worker(c, Start)])
    ensures Conserved(e', t)
  {
    assert e'.workers[..|e.workers|] == e.workers;
  }

  lemma ConservedStep(e: Edge, step: Step, t: Token)
    requires Conserved(e, t) && Enabled(e, step)
    ensures Conserved(Apply(e, step), t)
  {
    var e' := Apply(e, step);
    match step
    case Arrive(c) => ArrivalConserves(e, e', c, t);
    case Work(i, fails) => WorkConserves(e, i, fails, t);
    case Crash(i) => LettingGoConserves(e, e', i, e'.workers[i], t);
    case Evict(key) =>
    case ClaimReplyLost(i) => LettingGoConserves(e, e', i, e'.workers[i], t);
    case StoreFails(i) => LettingGoConserves(e, e', i, e'.workers[i], t);
  }

  /** Over every interleaving of instances, with crashes, evictions, lost replies, failing stores and failing recorders,
      a task is stored, held and charged, all together, at most as often as it was commissioned at that price. */
  lemma {:induction false} AttributionsAreConserved(steps: seq<Step>, t: Token)
    requires Run(steps).Some?
    ensures var e := Run(steps).value;
            Stored(e.shared.store, t) + Held(e.workers, t) + Times(e.consumed, t) <= Times(e.created, t)
  {
    if steps != [] {
      AttributionsAreConserved(steps[..|steps| - 1], t);
      ConservedStep(Run(steps[..|steps| - 1]).value, steps[|steps| - 1], t);
    }
  }

  // ---------------------------------------------------------------- every recorded charge, over whole runs

  /** A worker that holds an attribution reported that very task completed, under an identifier and without an error. */
  predicate HeldWasClaimed(w: Worker) {
    match w.phase
    case Resolved(origin) =>
      origin.Some? ==> ResponseTaskId(w.completion).Some? && Claims(w.completion, ResponseTaskId(w.completion).value)
    case PutBack(_, _) => ResponseTaskId(w.completion).Some? && Claims(w.completion, ResponseTaskId(w.completion).value)
    case _ => true
  }

  lemma AdvanceKeepsClaimed(s: Shared, c: Completion, phase: Phase, fails: bool)
    requires HeldWasClaimed(Worker(c, phase))
    ensures HeldWasClaimed(Worker(c, Advance(s, c, phase, fails).1))
  {
  }

  lemma {:induction false} WorkersClaimed(steps: seq<Step>)
    requires Run(steps).Some?
    ensures forall i | 0 <= i < |Run(steps).value.workers| :: HeldWasClaimed(Run(steps).value.workers[i])
  {
    if steps != [] {
      var n := |steps| - 1;
      WorkersClaimed(steps[..n]);
      var e := Run(steps[..n]).value;
      match steps[n]
      case Work(i, fails) => AdvanceKeepsClaimed(e.shared, e.workers[i].completion, e.workers[i].phase, fails);
      case _ =>
    }
  }

  lemma {:induction false} HeldCounts(workers: seq<Worker>, i: nat, t: Token)
    requires i < |workers|
    ensures Held(workers, t) >= Is(HeldBy(workers[i]), t)
  {
    if i < |workers| - 1 {
      HeldCounts(workers[..|workers| - 1], i, t);
    }
  }

  /** In any run, an attribution that some worker holds was created, for that task and at that price. */
  lemma HeldWasCreated(steps: seq<Step>, i: nat, t: Token)
    requires Run(steps).Some? && i < |Run(steps).value.workers| && HeldBy(Run(steps).value.workers[i]) == Some(t)
    ensures t in Run(steps).value.created
  {
    AttributionsAreConserved(steps, t);
    HeldCounts(Run(steps).value.workers, i, t);
  }

  /** The two things money may be recorded for, and how much of it. */
  predicate Charged(e: Edge, c: Completion, units: nat) {
    || (DeliversDirectly(c.call, PeekOf(c)) && units == UnitsFor(c.prices, c.call.method_, c.call.name))
    || (exists t | t in e.created :: t.key.tenant == c.tenant && Claims(c, t.key.id) && units == t.attribution.units)
  }

  /** Only a verdict moves the total, and then by the verdict's units. */
  lemma UnitsMoveByTheVerdict(s: Shared, c: Completion, phase: Phase, fails: bool)
    ensures var s' := Advance(s, c, phase, fails).0;
            s'.units != s.units ==>
              && phase.Resolved? && !fails && VerdictOf(c, phase.origin).Billable?
              && s'.units == s.units + VerdictOf(c, phase.origin).units
  {
  }

  lemma VerdictIsOwed(c: Completion, origin: Option<Attribution>)
    requires HeldWasClaimed(Worker(c, Resolved(origin))) && VerdictOf(c, origin).Billable?
    ensures || (DeliversDirectly(c.call, PeekOf(c))
                && VerdictOf(c, origin).units == UnitsFor(c.prices, c.call.method_, c.call.name))
            || (&& origin.Some? && ResponseTaskId(c).Some? && Claims(c, ResponseTaskId(c).value)
                && VerdictOf(c, origin).units == origin.value.units)
  {
    BillsExactlyDelivery(c.call, PeekOf(c), c.prices, if origin.Some? then Some(ByAttribution(origin.value)) else None);
  }

  /** Over every run: whatever any worker adds to the recorded units is the price of its own direct delivery, or the
      units resolved when the very task it reports completed was commissioned. */
  lemma EveryChargeIsOwed(steps: seq<Step>, i: nat, fails: bool)
    requires Run(steps).Some? && i < |Run(steps).value.workers|
    ensures var e := Run(steps).value;
            var after := Apply(e, Work(i, fails)).shared.units;
            after == e.shared.units
                || (after > e.shared.units && Charged(e, e.workers[i].completion, after - e.shared.units))
  {
    var e := Run(steps).value;
    var c, phase := e.workers[i].completion, e.workers[i].phase;
    UnitsMoveByTheVerdict(e.shared, c, phase, fails);
    if phase.Resolved? && VerdictOf(c, phase.origin).Billable? {
      WorkersClaimed(steps);
      VerdictIsOwed(c, phase.origin);
      if phase.origin.Some? && ResponseTaskId(c).Some? {
        HeldWasCreated(steps, i, Token(TaskKey(c.tenant, ResponseTaskId(c).value), phase.origin.value));
      }
    }
  }

  /** The same for the step of a run that charges. */
  lemma {:induction false} UnitsNeverAppear(steps: seq<Step>)
    requires steps != [] && Run(steps).Some?
    ensures var n := |steps| - 1;
            var e := Run(steps[..n]).value;
            var after := Run(steps).value.shared.units;
            after == e.shared.units
            || (steps[n].Work? && after > e.shared.units
                && Charged(e, e.workers[steps[n].worker].completion, after - e.shared.units))
  {
    var n := |steps| - 1;
    var e := Run(steps[..n]).value;
    match steps[n]
    case Work(i, fails) => EveryChargeIsOwed(steps[..n], i, fails);
    case _ =>
  }

  /** The units of some attributions, each counted as often as it occurs. */
  function UnitsOf(tokens: seq<Token>): nat {
    if tokens == [] then 0 else UnitsOf(tokens[..|tokens| - 1]) + tokens[|tokens| - 1].attribution.units
  }

  /** What an accepted step charges for a direct delivery. */
  function DirectUnits(c: Completion, phase: Phase, recorderFails: bool): nat {
    if phase.Resolved? && !recorderFails && DeliversDirectly(c.call, PeekOf(c))
        then UnitsFor(c.prices, c.call.method_, c.call.name)
    else 0
  }

  ghost function DirectTotal(steps: seq<Step>): nat
    requires Run(steps).Some?
  {
    if steps == [] then 0
    else
      var n := |steps| - 1;
      var e := Run(steps[..n]).value;
      DirectTotal(steps[..n])
      + if steps[n].Work?
        then DirectUnits(e.workers[steps[n].worker].completion, e.workers[steps[n].worker].phase,
                         steps[n].recorderFails)
        else 0
  }

  lemma NoteUnits(tokens: seq<Token>, o: Option<Token>)
    ensures UnitsOf(Note(tokens, o)) == UnitsOf(tokens) + if o.Some? then o.value.attribution.units else 0
  {
    if o.Some? {
      assert (tokens + [o.value])[..|tokens|] == tokens;
    }
  }

  /** One step charges no more than its own direct delivery or the attribution it consumes. */
  lemma StepIsPaidFor(s: Shared, c: Completion, phase: Phase, fails: bool)
    requires HeldWasClaimed(Worker(c, phase))
    ensures var consumed := ConsumedBy(c, phase, fails);
            Advance(s, c, phase, fails).0.units
            <= s.units + DirectUnits(c, phase, fails) + if consumed.Some? then consumed.value.attribution.units else 0
  {
    UnitsMoveByTheVerdict(s, c, phase, fails);
    if phase.Resolved? && VerdictOf(c, phase.origin).Billable? {
      VerdictIsOwed(c, phase.origin);
    }
  }

  lemma {:induction false} UnitsArePaidFor(steps: seq<Step>)
    requires Run(steps).Some?
    ensures Run(steps).value.shared.units <= DirectTotal(steps) + UnitsOf(Run(steps).value.consumed)
  {
    if steps != [] {
      var n := |steps| - 1;
      UnitsArePaidFor(steps[..n]);
      var e := Run(steps[..n]).value;
      match steps[n]
      case Work(i, fails) =>
        var w := e.workers[i];
        WorkersClaimed(steps[..n]);
        StepIsPaidFor(e.shared, w.completion, w.phase, fails);
        NoteUnits(e.consumed, ConsumedBy(w.completion, w.phase, fails));
      case _ =>
    }
  }

  lemma {:induction false} SplitUnits(tokens: seq<Token>, i: nat)
    requires i < |tokens|
    ensures UnitsOf(tokens) == UnitsOf(tokens[..i] + tokens[i + 1..]) + tokens[i].attribution.units
  {
    var n := |tokens| - 1;
    var rest := tokens[..i] + tokens[i + 1..];
    if i < n {
      SplitUnits(tokens[..n], i);
      assert rest[..n - 1] == tokens[..n][..i] + tokens[..n][i + 1..] && rest[n - 1] == tokens[n];
    } else {
      assert rest == tokens[..n];
    }
  }

  /** Of two collections of attributions, the one with fewer of each is worth no more. */
  lemma {:induction false} FewerAreWorthLess(a: seq<Token>, b: seq<Token>)
    requires forall t :: Times(a, t) <= Times(b, t)
    ensures UnitsOf(a) <= UnitsOf(b)
  {
    if a != [] {
      var init, last := a[..|a| - 1], a[|a| - 1];
      assert a == init + [last] && Times(a, last) >= 1;
      assert last in b;
      var i :| 0 <= i < |b| && b[i] == last;
      var rest := b[..i] + b[i + 1..];
      assert b == b[..i] + [last] + b[i + 1..];
      forall t ensures Times(init, t) <= Times(rest, t) {
        assert Times(a, t) <= Times(b, t);
      }
      FewerAreWorthLess(init, rest);
      SplitUnits(b, i);
    }
  }

  /** The recorded total of any run is covered by its direct deliveries and its commissions, each at its price and
      once. */
  lemma TotalIsCovered(steps: seq<Step>)
    requires Run(steps).Some?
    ensures var e := Run(steps).value;
            e.shared.units <= DirectTotal(steps) + UnitsOf(e.consumed) <= DirectTotal(steps) + UnitsOf(e.created)
  {
    var e := Run(steps).value;
    UnitsArePaidFor(steps);
    forall t ensures Times(e.consumed, t) <= Times(e.created, t) {
      AttributionsAreConserved(steps, t);
    }
    FewerAreWorthLess(e.consumed, e.created);
  }

  // ---------------------------------------------------------------- what is not charged goes back

  /** Whoever acts in between, once a worker has put back what it claimed the task has an attribution again: the claimed
      one, unless another instance stored one first. */
  lemma PutBackRestores(steps: seq<Step>, i: nat)
    requires Run(steps).Some? && i < |Run(steps).value.workers| && Run(steps).value.workers[i].phase.PutBack?
    ensures var e := Run(steps).value;
            var w := e.workers[i];
            var e' := Apply(e, Work(i, false));
            && ResponseTaskId(w.completion).Some?
            && var key := TaskKey(w.completion.tenant, ResponseTaskId(w.completion).value);
               key in e'.shared.store
               && e'.shared.store[key] == (if key in e.shared.store then e.shared.store[key] else w.phase.held)
               && (forall k | k != key :: k in e'.shared.store <==> k in e.shared.store)
               && (forall k | k != key && k in e.shared.store :: e'.shared.store[k] == e.shared.store[k])
               && Token(key, w.phase.held) in e.created
  {
    WorkersClaimed(steps);
    var w := Run(steps).value.workers[i];
    HeldWasCreated(steps, i, Token(TaskKey(w.completion.tenant, ResponseTaskId(w.completion).value), w.phase.held));
  }

  /** A worker that holds an attribution either charges it or goes on to put exactly it back. */
  lemma HeldIsChargedOrPutBack(steps: seq<Step>, i: nat, fails: bool)
    requires Run(steps).Some? && i < |Run(steps).value.workers|
    requires Run(steps).value.workers[i].phase.Resolved? && Run(steps).value.workers[i].phase.origin.Some?
    ensures var e := Run(steps).value;
            var w := e.workers[i];
            var origin := w.phase.origin;
            var e' := Apply(e, Work(i, fails));
            if VerdictOf(w.completion, origin).Billable? && !fails
            then HeldBy(w).Some? && e'.consumed == e.consumed + [HeldBy(w).value] && e'.workers[i].phase.Done?
            else e'.shared == e.shared && e'.consumed == e.consumed
                 && e'.workers[i].phase == PutBack(origin.value, VerdictOf(w.completion, origin).Free?)
  {
    WorkersClaimed(steps);
  }

  /** In any run, a charge for a task reported completed is for the units resolved when it was commissioned, under
      its own key. */
  lemma ChargedAtTheCommissionedPrice(steps: seq<Step>, i: nat, id: string)
    requires Run(steps).Some? && i < |Run(steps).value.workers| && Run(steps).value.workers[i].phase.Resolved?
    requires var w := Run(steps).value.workers[i];
             Claims(w.completion, id) && VerdictOf(w.completion, w.phase.origin).Billable?
    ensures var w := Run(steps).value.workers[i];
            var verdict := VerdictOf(w.completion, w.phase.origin);
            && w.phase.origin.Some?
            && Token(TaskKey(w.completion.tenant, id), w.phase.origin.value) in Run(steps).value.created
            && verdict.units == w.phase.origin.value.units && verdict.idempotencyKey == Some(id)
  {
    var w := Run(steps).value.workers[i];
    var origin := w.phase.origin;
    BillsExactlyDelivery(w.completion.call, PeekOf(w.completion), w.completion.prices,
                         if origin.Some? then Some(ByAttribution(origin.value)) else None);
    HeldWasCreated(steps, i, Token(TaskKey(w.completion.tenant, id), origin.value));
  }

  /** Undisturbed, a completion that is not charged leaves the attribution it claimed exactly where it was. */
  lemma UnchargedClaimIsRestored(s: Shared, c: Completion, id: string, fails: bool)
    requires !Mismatched(c) && Claims(c, id) && TaskKey(c.tenant, id) in s.store
    requires fails || VerdictOf(c, Some(s.store[TaskKey(c.tenant, id)])).Free?
    ensures Finish(s, c, Start, fails) == s
  {
    var key := TaskKey(c.tenant, id);
    var origin := s.store[key];
    var claimed := s.(store := s.store - {key});
    assert Advance(s, c, Start, fails) == (s, Inserted);
    assert Advance(s, c, Inserted, fails) == (claimed, Resolved(Some(origin)));
    var cleanUp := VerdictOf(c, Some(origin)).Free?;
    assert Advance(claimed, c, Resolved(Some(origin)), fails) == (claimed, PutBack(origin, cleanUp));
    assert claimed.store[key := origin] == s.store;
    assert Advance(claimed, c, PutBack(origin, cleanUp), fails) == (s, if cleanUp then CleanUp else Done);
    assert Advance(s, c, CleanUp, fails) == (s, Done);
    FinishUnfolds(s, c, fails, claimed, origin, cleanUp);
  }

  lemma FinishUnfolds(s: Shared, c: Completion, fails: bool, claimed: Shared, origin: Attribution, cleanUp: bool)
    requires Advance(s, c, Start, fails) == (s, Inserted)
    requires Advance(s, c, Inserted, fails) == (claimed, Resolved(Some(origin)))
    requires Advance(claimed, c, Resolved(Some(origin)), fails) == (claimed, PutBack(origin, cleanUp))
    requires Advance(claimed, c, PutBack(origin, cleanUp), fails) == (s, if cleanUp then CleanUp else Done)
    requires Advance(s, c, CleanUp, fails) == (s, Done)
    ensures Finish(s, c, Start, fails) == s
  {
    assert Finish(s, c, Done, fails) == s;
    assert Finish(s, c, CleanUp, fails) == s;
    assert Finish(claimed, c, PutBack(origin, cleanUp), fails) == s;
    assert Finish(claimed, c, Resolved(Some(origin)), fails) == s;
    assert Finish(s, c, Inserted, fails) == s;
  }
}
