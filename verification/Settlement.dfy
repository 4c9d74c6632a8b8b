/** The pipeline driving the partial-retry exporter: what a provider is ever asked to bill, over whole runs. */
module Settlement {
  import opened Prelude
  import opened B = UsageBuffer
  import opened P = BillingPipeline
  import opened X = MeterEventExporter

  /** Where the exporter's future stands while the retry guard owns a batch. */
  datatype Attempt = NotStarted | Submitted(unresolved: Unresolved) | Finished(ok: bool)

  /** What passed between exporter and provider: batches submitted, and definitive answers received. */
  datatype LogItem = Submission(batch: Batch) | Verdict(identifier: nat, outcome: Outcome)

  datatype System = System(p: World, x: ExporterState, leased: bool, attempt: Attempt, log: seq<LogItem>)

  const START := System(INITIAL, FRESH, false, NotStarted, [])

  datatype Move =
    | Pipeline(step: Step)
    | BeginMove
    | Answer(outcomes: seq<Outcome>)
    | ProviderError
    | Interrupt
    | TakeLetters
    | QuarantineAsync(aggregate: Aggregate, code: string)

  function Settings(limit: nat): P.Config {
    P.Config(CompleteBatch, limit)
  }

  ghost predicate Possible(limit: nat, s: System, move: Move) {
    match move
    case Pipeline(step) =>
      && P.Enabled(Settings(limit), s.p, step)
      && (step.Commit? ==> s.attempt == Finished(true))
      && (step.Restore? ==> s.attempt == Finished(false))
    case BeginMove => s.p.phase.Exporting? && s.attempt.NotStarted?
    case Answer(_) => s.attempt.Submitted?
    case ProviderError => s.attempt.Submitted?
    // Cancellation or a panic: before the export future is first polled, or while the provider is awaited.
    case Interrupt => s.p.phase.Exporting? && !s.attempt.Finished?
    case TakeLetters => true
    case QuarantineAsync(_, _) => true
  }

  ghost function Do(limit: nat, capacity: nat, s: System, move: Move): System
    requires Possible(limit, s, move)
    requires s.x.progress.Some? ==> WellFormed(s.x.progress.value)
  {
    match move
    case Pipeline(step) =>
      var p := P.Apply(Settings(limit), s.p, step);
      s.(p := p, attempt := if p.phase.Exporting? then s.attempt else NotStarted)
    case BeginMove =>
      (match Begin(s.x, s.leased, s.p.phase.batch)
       case Err(_) => s.(attempt := Finished(false))
       case Ok(x) =>
         var unresolved := UnresolvedOf(x.progress.value);
         if unresolved == [] then s.(x := x.(progress := None), attempt := Finished(true))
         else s.(x := x, leased := true, attempt := Submitted(unresolved),
                 log := s.log + [Submission(Aggregates(unresolved))]))
    case Answer(outcomes) =>
      var unresolved := s.attempt.unresolved;
      if |outcomes| != |unresolved| then s.(leased := false, attempt := Finished(false))
      else
        var x := SettleFirst(s.x, capacity, unresolved, outcomes, |outcomes|);
        var log := WithVerdicts(s.log, unresolved, outcomes, |outcomes|);
        if exists j | 0 <= j < |outcomes| :: !Definitive(outcomes[j])
        then s.(x := x, leased := false, attempt := Finished(false), log := log)
        else s.(x := x.(progress := None), leased := false, attempt := Finished(true), log := log)
    case ProviderError => s.(leased := false, attempt := Finished(false))
    case Interrupt => s.(leased := if s.attempt.Submitted? then false else s.leased, attempt := Finished(false))
    case TakeLetters => s.(x := s.x.(letters := [], drained := s.x.drained + s.x.letters))
    case QuarantineAsync(a,
                         code) => s.(x := Quarantine(s.x, capacity, DeadLetter(a, AsynchronousProviderRejection(code))))
  }

  function Aggregates(unresolved: Unresolved): Batch {
    seq(|unresolved|, j requires 0 <= j < |unresolved| => unresolved[j].1)
  }

  /** The log after the first `n` answers. */
  function WithVerdicts(log: seq<LogItem>, unresolved: Unresolved, outcomes: seq<Outcome>, n: nat): seq<LogItem>
    requires n <= |unresolved| && n <= |outcomes|
  {
    if n == 0 then log
    else WithVerdicts(log, unresolved, outcomes, n - 1)
         + if Definitive(outcomes[n - 1]) then [Verdict(unresolved[n - 1].1.identifier, outcomes[n - 1])] else []
  }

  predicate Settled(log: seq<LogItem>, id: nat) {
    exists item | item in log :: item.Verdict? && item.identifier == id
  }

  /** The members of a batch that have no verdict, in order. */
  function Unjudged(batch: Batch, log: seq<LogItem>): Batch {
    if batch == [] then []
    else
      var last := batch[|batch| - 1];
      Unjudged(batch[..|batch| - 1], log) + if Settled(log, last.identifier) then [] else [last]
  }

  predicate Contains(batch: Batch, id: nat) {
    exists a | a in batch :: a.identifier == id
  }

  // ---------------------------------------------------------------- the discipline of the log

  /** Once an identifier has its verdict, no later submission carries it and no later verdict names it. */
  predicate Disciplined(log: seq<LogItem>) {
    forall i, j | 0 <= i < j < |log| && log[i].Verdict? ::
      match log[j]
      case Submission(batch) => !Contains(batch, log[i].identifier)
      case Verdict(id, _) => id != log[i].identifier
  }

  lemma DisciplinedAppend(log: seq<LogItem>, item: LogItem)
    requires Disciplined(log)
    requires match item
             case Submission(batch) => forall a | a in batch :: !Settled(log, a.identifier)
             case Verdict(id, _) => !Settled(log, id)
    ensures Disciplined(log + [item])
  {
  }

  lemma {:induction false} AnsweredExact(log: seq<LogItem>, unresolved: Unresolved, outcomes: seq<Outcome>, n: nat)
    requires n <= |unresolved| && n <= |outcomes| && Disciplined(log)
    requires forall i, j | 0 <= i < j < |unresolved| :: unresolved[i].1.identifier != unresolved[j].1.identifier
    requires forall j | 0 <= j < |unresolved| :: !Settled(log, unresolved[j].1.identifier)
    ensures var after := WithVerdicts(log, unresolved, outcomes, n);
            && Disciplined(after)
            && (forall id :: Settled(after, id) <==>
                  Settled(log, id)
                      || exists j | 0 <= j < n :: unresolved[j].1.identifier == id && Definitive(outcomes[j]))
            && (forall item | item in after ::
                  item in log || exists j | 0 <= j < n :: item == Verdict(unresolved[j].1.identifier, outcomes[j]))
  {
    if n > 0 {
      AnsweredExact(log, unresolved, outcomes, n - 1);
      var before := WithVerdicts(log, unresolved, outcomes, n - 1);
      if Definitive(outcomes[n - 1]) {
        var item := Verdict(unresolved[n - 1].1.identifier, outcomes[n - 1]);
        DisciplinedAppend(before, item);
        assert item in before + [item];
      }
    }
  }

  // ---------------------------------------------------------------- the invariant

  /** The one batch under way: owned by the retry guard, or waiting in the retry queue. */
  function Current(p: World): Option<Batch> {
    if p.phase.Exporting? then Some(p.phase.batch)
    else if p.buffer.retry != [] then Some(p.buffer.retry[0])
    else None
  }

  predicate OneBatch(p: World) {
    && |p.buffer.retry| <= 1
    && (p.phase.Exporting? ==> p.buffer.retry == [])
    && (Current(p).Some? ==>
          Current(p).value != [] && DistinctIds(Current(p).value) && forall a | a in Current(p).value :: Issued(p, a))
  }

  predicate Issued(p: World, a: Aggregate) {
    a.identifier in p.issued && p.issued[a.identifier] == a
  }

  /** The exporter's marks are the log's verdicts, on the batch the pipeline holds. */
  predicate Agreed(s: System) {
    && (!s.p.phase.Exporting? ==> s.attempt.NotStarted?)
    && (s.leased <==> s.attempt.Submitted?)
    && match s.x.progress
       case Some(progress) =>
         && WellFormed(progress)
         && Current(s.p) == Some(progress.batch)
         && s.attempt != Finished(true)
         && (s.attempt.Submitted? ==> s.attempt.unresolved == UnresolvedOf(progress))
         && (forall i | 0 <= i < |progress.batch| ::
               progress.completed[i] <==> Settled(s.log, progress.batch[i].identifier))
       case None =>
         && !s.attempt.Submitted?
         && (Current(s.p).Some? ==>
               forall a | a in Current(s.p).value :: Settled(s.log, a.identifier) <==> s.attempt == Finished(true))
  }

  predicate LogIssued(s: System) {
    forall item | item in s.log ::
      match item
      case Submission(batch) => forall a | a in batch :: Issued(s.p, a)
      case Verdict(id, outcome) => id in s.p.issued && Definitive(outcome)
  }

  predicate CommittedSettled(s: System) {
    forall batch, a | batch in s.p.committed && a in batch :: Settled(s.log, a.identifier)
  }

  predicate RejectionsKept(s: System) {
    forall item | item in s.log && item.Verdict? && item.outcome.PermanentRejection? ::
      AccountedFor(s.x, item.identifier)
  }

  ghost predicate Invariant(limit: nat, s: System) {
    && Sound(Settings(limit), s.p)
    && OneBatch(s.p)
    && Agreed(s)
    && Disciplined(s.log)
    && LogIssued(s)
    && CommittedSettled(s)
    && RejectionsKept(s)
  }

  lemma InvariantStep(limit: nat, capacity: nat, s: System, move: Move)
    requires Invariant(limit, s) && Possible(limit, s, move)
    ensures Invariant(limit, Do(limit, capacity, s, move))
  {
    match move
    case Pipeline(step) => PipelineKeeps(limit, capacity, s, step);
    case BeginMove => BeginKeeps(limit, capacity, s);
    case Answer(outcomes) => AnswerKeeps(limit, capacity, s, outcomes);
    case QuarantineAsync(a, code) => QuarantineAccounts(s.x, capacity,
                                                        DeadLetter(a, AsynchronousProviderRejection(code)));
    case TakeLetters =>
      var s' := Do(limit, capacity, s, move);
      forall id | AccountedFor(s.x, id) ensures AccountedFor(s'.x, id) {
      }
    case _ =>
  }

  lemma PipelineKeeps(limit: nat, capacity: nat, s: System, step: Step)
    requires Invariant(limit, s) && Possible(limit, s, Pipeline(step))
    ensures Invariant(limit, Do(limit, capacity, s, Pipeline(step)))
  {
    var s' := Do(limit, capacity, s, Pipeline(step));
    SoundStep(Settings(limit), s.p, step);
    if step.Prepare? && !TakesRetry(CompleteBatch, s.p.buffer) {
      DrainKeeps(limit, capacity, s, step.batch);
    } else {
      OtherStepKeeps(limit, capacity, s, step);
      assert LogIssued(s');
    }
    assert CommittedSettled(s') by {
      if step.Commit? {
        assert s'.p.committed == s.p.committed + [s.p.phase.batch];
      }
    }
  }

  lemma OtherStepKeeps(limit: nat, capacity: nat, s: System, step: Step)
    requires OneBatch(s.p) && Agreed(s) && Possible(limit, s, Pipeline(step))
    requires !(step.Prepare? && !TakesRetry(CompleteBatch, s.p.buffer))
    ensures var s' := Do(limit, capacity, s, Pipeline(step));
            s'.p.issued == s.p.issued && s'.log == s.log && OneBatch(s'.p) && Agreed(s')
    ensures step.Commit? ==> forall a | a in s.p.phase.batch :: Settled(s.log, a.identifier)
  {
  }

  /** Newly named aggregates have no history: nothing in the log speaks of them. */
  lemma DrainNamesAfresh(limit: nat, s: System, batch: Batch)
    requires Invariant(limit, s) && Drained(s.p.buffer.pending, s.p.nextId, batch)
    ensures forall a | a in batch :: !Settled(s.log, a.identifier)
    ensures forall id | id in s.p.issued :: id !in Naming(batch)
    ensures forall a | a in batch :: a.identifier in Naming(batch) && Naming(batch)[a.identifier] == a
  {
    NamingNames(batch);
    forall id | id in s.p.issued ensures id !in Naming(batch) {
      assert AggregateOf(s.p.entries, s.p.issued[id], id) && id < s.p.nextId;
    }
    forall a | a in batch ensures !Settled(s.log, a.identifier) {
    }
  }

  lemma DrainKeeps(limit: nat, capacity: nat, s: System, batch: Batch)
    requires Invariant(limit, s) && Possible(limit, s, Pipeline(Prepare(batch)))
             && !TakesRetry(CompleteBatch, s.p.buffer)
    ensures var s' := Do(limit, capacity, s, Pipeline(Prepare(batch)));
            OneBatch(s'.p) && Agreed(s') && LogIssued(s')
  {
    var s' := Do(limit, capacity, s, Pipeline(Prepare(batch)));
    DrainNamesAfresh(limit, s, batch);
    assert s'.p.issued == s.p.issued + Naming(batch) && s'.log == s.log;
    assert OneBatch(s'.p);
    assert LogIssued(s');
  }

  /** The refusal "retry the incomplete batch first" and the lease refusal cannot happen. */
  lemma NeverWedged(s: System)
    requires OneBatch(s.p) && Agreed(s) && s.p.phase.Exporting? && s.attempt.NotStarted?
    ensures Begin(s.x, s.leased, s.p.phase.batch).Ok?
    ensures s.x.progress.Some? ==> s.x.progress.value.batch == s.p.phase.batch
  {
  }

  lemma {:induction false} UnjudgedMembers(batch: Batch, log: seq<LogItem>)
    ensures forall a :: a in Unjudged(batch, log) <==> a in batch && !Settled(log, a.identifier)
  {
    if batch != [] {
      UnjudgedMembers(batch[..|batch| - 1], log);
      assert batch == batch[..|batch| - 1] + [batch[|batch| - 1]];
    }
  }

  lemma {:induction false} UnresolvedIsUnjudged(p: Progress, log: seq<LogItem>, n: nat)
    requires WellFormed(p) && n <= |p.batch|
    requires forall i | 0 <= i < |p.batch| :: p.completed[i] <==> Settled(log, p.batch[i].identifier)
    ensures Aggregates(UnresolvedFirst(p, n)) == Unjudged(p.batch[..n], log)
  {
    if n > 0 {
      UnresolvedIsUnjudged(p, log, n - 1);
      assert p.batch[..n][..n - 1] == p.batch[..n - 1];
    }
  }

  /** The exporter starts from the held batch, with the marks the log gives it. */
  lemma BegunMarks(s: System)
    requires OneBatch(s.p) && Agreed(s) && s.p.phase.Exporting? && s.attempt.NotStarted?
    ensures var progress := Begin(s.x, s.leased, s.p.phase.batch).value.progress.value;
            && WellFormed(progress) && progress.batch == s.p.phase.batch
            && (forall i | 0 <= i < |progress.batch| ::
                  progress.completed[i] <==> Settled(s.log, progress.batch[i].identifier))
            && (forall j | 0 <= j < |UnresolvedOf(progress)| ::
                  UnresolvedOf(progress)[j].1 in progress.batch
                      && !Settled(s.log, UnresolvedOf(progress)[j].1.identifier))
            && (UnresolvedOf(progress) == [] ==> forall a | a in progress.batch :: Settled(s.log, a.identifier))
  {
    var progress := Begin(s.x, s.leased, s.p.phase.batch).value.progress.value;
    UnresolvedFirstExact(progress, |progress.batch|);
  }

  /** What is submitted is exactly the members of the held batch that have no verdict yet, in the batch's order. */
  lemma BegunExact(s: System)
    requires OneBatch(s.p) && Agreed(s) && s.p.phase.Exporting? && s.attempt.NotStarted?
    ensures var progress := Begin(s.x, s.leased, s.p.phase.batch).value.progress.value;
            && WellFormed(progress) && progress.batch == s.p.phase.batch
            && (forall i | 0 <= i < |progress.batch| ::
                  progress.completed[i] <==> Settled(s.log, progress.batch[i].identifier))
            && Aggregates(UnresolvedOf(progress)) == Unjudged(progress.batch, s.log)
            && (forall a | a in progress.batch && !Settled(s.log, a.identifier) ::
                  a in Aggregates(UnresolvedOf(progress)))
            && (forall i, j | 0 <= i < j < |UnresolvedOf(progress)| ::
                  UnresolvedOf(progress)[i].0 < UnresolvedOf(progress)[j].0)
            && (forall j | 0 <= j < |UnresolvedOf(progress)| ::
                  UnresolvedOf(progress)[j].1 in progress.batch
                      && !Settled(s.log, UnresolvedOf(progress)[j].1.identifier))
            && (UnresolvedOf(progress) == [] ==> forall a | a in progress.batch :: Settled(s.log, a.identifier))
  {
    BegunMarks(s);
    var progress := Begin(s.x, s.leased, s.p.phase.batch).value.progress.value;
    UnresolvedFirstExact(progress, |progress.batch|);
    UnresolvedIsUnjudged(progress, s.log, |progress.batch|);
    UnjudgedMembers(progress.batch, s.log);
    assert progress.batch[..|progress.batch|] == progress.batch;
  }

  /** Every export resubmits all that is unresolved and nothing else; with nothing unresolved it asks nobody. */
  lemma ResubmitsTheUnjudged(limit: nat, capacity: nat, s: System)
    requires Invariant(limit, s) && Possible(limit, s, BeginMove)
    ensures var rest := Unjudged(s.p.phase.batch, s.log);
            Do(limit, capacity, s, BeginMove).log == s.log + if rest == [] then [] else [Submission(rest)]
  {
    NeverWedged(s);
    BegunExact(s);
    var unresolved := UnresolvedOf(Begin(s.x, s.leased, s.p.phase.batch).value.progress.value);
    assert |Aggregates(unresolved)| == |unresolved|;
    assert s.log + [] == s.log;
  }

  /** The move with which an export that reached the provider ends. */
  function ReplyMove(reply: Reply): Move {
    match reply
    case Answered(outcomes) => Answer(outcomes)
    case Failed => ProviderError
    case Interrupted => Interrupt
  }

  /** How a reply ends an export that reached the provider. */
  lemma ReplyEnds(limit: nat, capacity: nat, s: System, reply: Reply)
    requires s.p.phase.Exporting? && s.attempt.Submitted? && s.x.progress.Some? && WellFormed(s.x.progress.value)
    ensures var u := s.attempt.unresolved;
            var after := Do(limit, capacity, s, ReplyMove(reply));
            && !after.leased
            && if !reply.Answered? || |reply.outcomes| != |u| then after.x == s.x && after.attempt == Finished(false)
               else
                 var settled := SettleFirst(s.x, capacity, u, reply.outcomes, |u|);
                 if exists j | 0 <= j < |u| :: !Definitive(reply.outcomes[j])
                     then after.x == settled && after.attempt == Finished(false)
                 else after.x == settled.(progress := None) && after.attempt == Finished(true)
  {
  }

  /** How a beginning export leaves the exporter. */
  lemma BeginEnds(limit: nat, capacity: nat, s: System)
    requires OneBatch(s.p) && Agreed(s) && Possible(limit, s, BeginMove)
    ensures var begun := Begin(s.x, s.leased, s.p.phase.batch);
            var after := Do(limit, capacity, s, BeginMove);
            && begun.Ok? && begun.value.progress.Some? && WellFormed(begun.value.progress.value) && after.p == s.p
            && var u := UnresolvedOf(begun.value.progress.value);
               if u == [] then after.attempt == Finished(true) && after.x == begun.value.(progress := None)
               else after.attempt == Submitted(u) && after.x == begun.value
  {
    NeverWedged(s);
    BegunMarks(s);
  }

  /** An export as the machine makes it, one move at a time, is the exporter's whole `export`. */
  lemma ExportIsItsMoves(limit: nat, capacity: nat, s: System, reply: Reply)
    requires Invariant(limit, s) && Possible(limit, s, BeginMove)
    ensures var begun := Do(limit, capacity, s, BeginMove);
            var whole := ExportOnce(s.x, capacity, s.leased, s.p.phase.batch, reply);
            if begun.attempt.Finished? then (begun.x, begun.attempt.ok) == whole
            else
              var after := Do(limit, capacity, begun, ReplyMove(reply));
              (after.x, after.attempt == Finished(true)) == whole && after.attempt.Finished? && !after.leased
  {
    BeginEnds(limit, capacity, s);
    var begun := Do(limit, capacity, s, BeginMove);
    if begun.attempt.Submitted? {
      ReplyEnds(limit, capacity, begun, reply);
    }
  }

  lemma BeginKeeps(limit: nat, capacity: nat, s: System)
    requires Invariant(limit, s) && Possible(limit, s, BeginMove)
    ensures Invariant(limit, Do(limit, capacity, s, BeginMove))
  {
    var s' := Do(limit, capacity, s, BeginMove);
    NeverWedged(s);
    BegunMarks(s);
    var unresolved := UnresolvedOf(Begin(s.x, s.leased, s.p.phase.batch).value.progress.value);
    if unresolved != [] {
      SubmittedKeeps(limit, s, s', unresolved);
    } else {
      assert s'.log == s.log && s'.p == s.p;
    }
  }

  lemma SubmittedKeeps(limit: nat, s: System, s': System, unresolved: Unresolved)
    requires Invariant(limit, s) && s.p.phase.Exporting? && s.attempt.NotStarted?
             && Begin(s.x, s.leased, s.p.phase.batch).Ok?
    requires unresolved == UnresolvedOf(Begin(s.x, s.leased, s.p.phase.batch).value.progress.value)
    requires s' == s.(x := Begin(s.x, s.leased, s.p.phase.batch).value, leased := true,
                      attempt := Submitted(unresolved),
                      log := s.log + [Submission(Aggregates(unresolved))])
    ensures Invariant(limit, s')
  {
    BegunMarks(s);
    SubmissionKeeps(s, Aggregates(unresolved), s'.log);
    RejectionsKeptBySubmission(s, s', Aggregates(unresolved));
    assert s'.p == s.p;
  }

  lemma SubmissionKeeps(s: System, batch: Batch, log: seq<LogItem>)
    requires OneBatch(s.p) && Disciplined(s.log) && s.p.phase.Exporting?
    requires forall a | a in batch :: a in s.p.phase.batch && !Settled(s.log, a.identifier)
    requires log == s.log + [Submission(batch)]
    ensures Disciplined(log)
    ensures forall id :: Settled(log, id) <==> Settled(s.log, id)
    ensures forall a | a in batch :: Issued(s.p, a)
  {
    DisciplinedAppend(s.log, Submission(batch));
    forall id ensures Settled(log, id) <==> Settled(s.log, id) {
    }
  }

  lemma RejectionsKeptBySubmission(s: System, s': System, batch: Batch)
    requires RejectionsKept(s) && s'.log == s.log + [Submission(batch)]
    requires s'.x.letters == s.x.letters && s'.x.drained == s.x.drained && s'.x.discarded == s.x.discarded
    ensures RejectionsKept(s')
  {
  }

  lemma AnswerKeeps(limit: nat, capacity: nat, s: System, outcomes: seq<Outcome>)
    requires Invariant(limit, s) && Possible(limit, s, Answer(outcomes))
    ensures Invariant(limit, Do(limit, capacity, s, Answer(outcomes)))
  {
    var s' := Do(limit, capacity, s, Answer(outcomes));
    assert s'.p == s.p;
    if |outcomes| == |s.attempt.unresolved| {
      AnsweredMarks(s, capacity, outcomes);
      AnsweredLog(s, capacity, outcomes);
      assert Agreed(s');
    }
  }

  lemma UnresolvedIds(s: System)
    requires OneBatch(s.p) && Agreed(s) && s.attempt.Submitted?
    ensures var u := s.attempt.unresolved;
            var progress := s.x.progress.value;
            && (forall j | 0 <= j < |u| ::
                  && u[j].0 < |progress.batch| && u[j].1 == progress.batch[u[j].0]
                  && !Settled(s.log, u[j].1.identifier))
            && (forall i, j | 0 <= i < j < |u| :: u[i].1.identifier != u[j].1.identifier)
            && (forall i | 0 <= i < |progress.batch| && !progress.completed[i] :: (i, progress.batch[i]) in u)
  {
    UnresolvedFirstExact(s.x.progress.value, |s.x.progress.value.batch|);
  }

  /** The `i`th member of a batch is answered at exactly one place of the submission, if it is unresolved at all. */
  lemma AnsweredAt(s: System, i: nat)
    requires OneBatch(s.p) && Agreed(s) && s.attempt.Submitted? && i < |s.x.progress.value.batch|
    ensures var u := s.attempt.unresolved;
            var batch := s.x.progress.value.batch;
            && (forall j | 0 <= j < |u| :: u[j].1.identifier == batch[i].identifier <==> u[j].0 == i)
            && (!s.x.progress.value.completed[i] ==> exists j | 0 <= j < |u| :: u[j].0 == i)
  {
    var u := s.attempt.unresolved;
    var batch := s.x.progress.value.batch;
    UnresolvedIds(s);
    assert DistinctIds(batch);
    if !s.x.progress.value.completed[i] {
      var j :| 0 <= j < |u| && u[j] == (i, batch[i]);
    }
  }

  lemma AnsweredMarks(s: System, capacity: nat, outcomes: seq<Outcome>)
    requires OneBatch(s.p) && Agreed(s) && Disciplined(s.log) && s.attempt.Submitted?
             && |outcomes| == |s.attempt.unresolved|
    ensures var x := SettleFirst(s.x, capacity, s.attempt.unresolved, outcomes, |outcomes|);
            var log := WithVerdicts(s.log, s.attempt.unresolved, outcomes, |outcomes|);
            && x.progress.Some? && WellFormed(x.progress.value) && x.progress.value.batch == s.x.progress.value.batch
            && (forall i | 0 <= i < |x.progress.value.batch| ::
                  x.progress.value.completed[i] <==> Settled(log, x.progress.value.batch[i].identifier))
            && ((forall j | 0 <= j < |outcomes| :: Definitive(outcomes[j])) ==>
                  forall i | 0 <= i < |x.progress.value.batch| :: x.progress.value.completed[i])
  {
    var u := s.attempt.unresolved;
    UnresolvedIds(s);
    AnsweredExact(s.log, u, outcomes, |outcomes|);
    SettleFirstMarks(s.x, capacity, u, outcomes, |outcomes|);
    var x := SettleFirst(s.x, capacity, u, outcomes, |outcomes|);
    var log := WithVerdicts(s.log, u, outcomes, |outcomes|);
    var batch := s.x.progress.value.batch;
    forall i | 0 <= i < |batch|
      ensures x.progress.value.completed[i] <==> Settled(log, batch[i].identifier)
      ensures (forall j | 0 <= j < |outcomes| :: Definitive(outcomes[j])) ==> x.progress.value.completed[i]
    {
      AnsweredAt(s, i);
    }
  }

  lemma AnsweredLog(s: System, capacity: nat, outcomes: seq<Outcome>)
    requires OneBatch(s.p) && Agreed(s) && Disciplined(s.log) && LogIssued(s) && CommittedSettled(s)
             && RejectionsKept(s)
    requires s.attempt.Submitted? && |outcomes| == |s.attempt.unresolved|
    ensures var s' := s.(x := SettleFirst(s.x, capacity, s.attempt.unresolved, outcomes, |outcomes|),
                         log := WithVerdicts(s.log, s.attempt.unresolved, outcomes, |outcomes|));
            Disciplined(s'.log) && LogIssued(s') && CommittedSettled(s') && RejectionsKept(s')
  {
    var u := s.attempt.unresolved;
    UnresolvedIds(s);
    AnsweredExact(s.log, u, outcomes, |outcomes|);
    var s' := s.(x := SettleFirst(s.x, capacity, u, outcomes, |outcomes|),
                 log := WithVerdicts(s.log, u, outcomes, |outcomes|));
    assert LogIssued(s') by {
      AnsweredDefinitive(s.log, u, outcomes, |outcomes|);
      forall j | 0 <= j < |u| ensures Issued(s.p, u[j].1) {
      }
    }
    AnsweredRejections(s, s', u, outcomes, capacity);
  }

  lemma AnsweredRejections(s: System, s': System, u: Unresolved, outcomes: seq<Outcome>, capacity: nat)
    requires RejectionsKept(s) && |outcomes| == |u|
    requires s'.x == SettleFirst(s.x, capacity, u, outcomes, |outcomes|)
    requires forall item | item in s'.log ::
               item in s.log || exists j | 0 <= j < |outcomes| :: item == Verdict(u[j].1.identifier, outcomes[j])
    ensures RejectionsKept(s')
  {
    SettleFirstAccounts(s.x, capacity, u, outcomes, |outcomes|);
    forall item | item in s'.log && item.Verdict? && item.outcome.PermanentRejection?
      ensures AccountedFor(s'.x, item.identifier)
    {
      if item !in s.log {
        var j :| 0 <= j < |outcomes| && item == Verdict(u[j].1.identifier, outcomes[j]);
      }
    }
  }

  lemma {:induction false} AnsweredDefinitive(log: seq<LogItem>, unresolved: Unresolved, outcomes: seq<Outcome>, n: nat)
    requires n <= |unresolved| && n <= |outcomes|
    ensures forall item | item in WithVerdicts(log, unresolved, outcomes, n) ::
              item in log || (item.Verdict? && Definitive(item.outcome))
  {
    if n > 0 {
      AnsweredDefinitive(log, unresolved, outcomes, n - 1);
    }
  }

  // ---------------------------------------------------------------- whole runs

  ghost function RunAll(limit: nat, capacity: nat, moves: seq<Move>): (r: Option<System>)
    ensures r.Some? ==> Invariant(limit, r.value)
  {
    if moves == [] then
      SoundRun(Settings(limit), []);
      Some(START)
    else
      var before := RunAll(limit, capacity, moves[..|moves| - 1]);
      var move := moves[|moves| - 1];
      if before.Some? && Possible(limit, before.value, move) then
        InvariantStep(limit, capacity, before.value, move);
        Some(Do(limit, capacity, before.value, move))
      else None
  }

  /** Over whole runs: no identifier is submitted after its verdict or judged twice; every submission repeats
      aggregates exactly as they were first named, and the next one is of all that is unjudged; and a batch is
      committed only with one verdict for each of its members. */
  lemma SettlementDiscipline(limit: nat, capacity: nat, moves: seq<Move>)
    requires RunAll(limit, capacity, moves).Some?
    ensures var s := RunAll(limit, capacity, moves).value;
            && Disciplined(s.log)
            && (forall item, a | item in s.log && item.Submission? && a in item.batch ::
                  a.identifier in s.p.issued && s.p.issued[a.identifier] == a)
            && (Possible(limit, s, BeginMove) ==>
                  var rest := Unjudged(s.p.phase.batch, s.log);
                  Do(limit, capacity, s, BeginMove).log == s.log + if rest == [] then [] else [Submission(rest)])
            && (forall batch, a | batch in s.p.committed && a in batch :: JudgedOnce(s.log, a.identifier))
            && (forall item | item in s.log && item.Verdict? && item.outcome.PermanentRejection? ::
                  AccountedFor(s.x, item.identifier))
  {
    var s := RunAll(limit, capacity, moves).value;
    forall item, a | item in s.log && item.Submission? && a in item.batch
      ensures Issued(s.p, a)
    {
    }
    if Possible(limit, s, BeginMove) {
      ResubmitsTheUnjudged(limit, capacity, s);
    }
    forall batch, a | batch in s.p.committed && a in batch ensures JudgedOnce(s.log, a.identifier) {
      SettledIsOnce(s.log, a.identifier);
    }
  }

  predicate JudgedAt(log: seq<LogItem>, i: nat, id: nat) {
    i < |log| && log[i].Verdict? && log[i].identifier == id && Definitive(log[i].outcome)
  }

  ghost predicate JudgedOnce(log: seq<LogItem>, id: nat) {
    exists i :: JudgedAt(log, i, id) && forall j :: JudgedAt(log, j, id) ==> j == i
  }

  lemma SettledIsOnce(log: seq<LogItem>, id: nat)
    requires Disciplined(log) && Settled(log, id)
    requires forall item | item in log && item.Verdict? :: Definitive(item.outcome)
    ensures JudgedOnce(log, id)
  {
    var item :| item in log && item.Verdict? && item.identifier == id;
    var i :| 0 <= i < |log| && log[i] == item;
    assert JudgedAt(log, i, id);
    forall j | JudgedAt(log, j, id) ensures j == i {
    }
  }

  /** After any mix of failures, cancellations and panics the exporter takes the batch the pipeline offers it, and
      the pipeline never holds a second one. */
  lemma CompositionNeverWedges(limit: nat, capacity: nat, moves: seq<Move>)
    requires RunAll(limit, capacity, moves).Some?
    ensures var s := RunAll(limit, capacity, moves).value;
            && |s.p.buffer.retry| + (if s.p.phase.Exporting? then 1 else 0) <= 1
            && (s.x.progress.Some? ==> Current(s.p) == Some(s.x.progress.value.batch))
            && (Possible(limit, s, BeginMove) ==> Begin(s.x, s.leased, s.p.phase.batch).Ok?)
  {
    var s := RunAll(limit, capacity, moves).value;
    if Possible(limit, s, BeginMove) {
      NeverWedged(s);
    }
  }
}
