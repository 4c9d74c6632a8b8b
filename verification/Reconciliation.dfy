/** The ledger and the verdicts together: where every recorded unit stands with the provider. */
module Reconciliation {
  import opened Prelude
  import opened B = UsageBuffer
  import opened P = BillingPipeline
  import opened X = MeterEventExporter
  import opened S = Settlement

  /** Units of key `k` in one verdict, counted only when it is of the asked kind. */
  function VerdictUnits(item: LogItem, issued: map<nat, Aggregate>, k: Key, accepted: bool): nat {
    if item.Verdict? && item.outcome.Accepted? == accepted && item.identifier in issued
        && AggregateKey(issued[item.identifier]) == k
    then issued[item.identifier].units
    else 0
  }

  /** Units of key `k` that the provider accepted, or permanently rejected. */
  function JudgedUnits(log: seq<LogItem>, issued: map<nat, Aggregate>, k: Key, accepted: bool): nat {
    if log == [] then 0
    else
      JudgedUnits(log[..|log| - 1], issued, k, accepted) + VerdictUnits(log[|log| - 1], issued, k, accepted)
  }

  /** Both kinds together. */
  function AllJudged(log: seq<LogItem>, issued: map<nat, Aggregate>, k: Key): nat {
    JudgedUnits(log, issued, k, true) + JudgedUnits(log, issued, k, false)
  }

  function CurrentBatch(p: World): Batch {
    if Current(p).Some? then Current(p).value else []
  }

  /** Units of the one batch under way whose aggregates have no verdict. */
  function UnjudgedUnits(s: System, k: Key): nat {
    UnitsIn(Unjudged(CurrentBatch(s.p), s.log), k)
  }

  /** Units that left the pending map are judged or still unjudged. */
  predicate Balanced(log: seq<LogItem>, issued: map<nat, Aggregate>, current: Batch, committed: seq<Batch>, k: Key) {
    AllJudged(log, issued, k) + UnitsIn(Unjudged(current, log), k) == UnitsIn(current, k) + UnitsInAll(committed, k)
  }

  predicate Tallied(s: System, k: Key) {
    Balanced(s.log, s.p.issued, CurrentBatch(s.p), s.p.committed, k)
  }

  lemma JudgedAppend(log: seq<LogItem>, item: LogItem, issued: map<nat, Aggregate>, k: Key, accepted: bool)
    ensures JudgedUnits(log + [item], issued, k, accepted)
            == JudgedUnits(log, issued, k, accepted) + VerdictUnits(item, issued, k, accepted)
  {
    assert (log + [item])[..|log|] == log;
  }

  /** Naming new aggregates does not touch the verdicts on old ones. */
  lemma {:induction false} JudgedStays(log: seq<LogItem>, issued: map<nat, Aggregate>, issued': map<nat, Aggregate>,
                                       k: Key, accepted: bool)
    requires forall item | item in log && item.Verdict? ::
               item.identifier in issued && item.identifier in issued'
                   && issued'[item.identifier] == issued[item.identifier]
    ensures JudgedUnits(log, issued', k, accepted) == JudgedUnits(log, issued, k, accepted)
  {
    if log != [] {
      assert log[|log| - 1] in log;
      JudgedStays(log[..|log| - 1], issued, issued', k, accepted);
    }
  }

  lemma {:induction false} SameVerdicts(batch: Batch, log: seq<LogItem>, log': seq<LogItem>)
    requires forall a | a in batch :: Settled(log, a.identifier) <==> Settled(log', a.identifier)
    ensures Unjudged(batch, log') == Unjudged(batch, log)
  {
    if batch != [] {
      assert batch[|batch| - 1] in batch;
      SameVerdicts(batch[..|batch| - 1], log, log');
    }
  }

  lemma {:induction false} AllUnjudged(batch: Batch, log: seq<LogItem>)
    requires forall i | 0 <= i < |batch| :: !Settled(log, batch[i].identifier)
    ensures Unjudged(batch, log) == batch
  {
    if batch != [] {
      AllUnjudged(batch[..|batch| - 1], log);
      assert batch == batch[..|batch| - 1] + [batch[|batch| - 1]];
    }
  }

  lemma {:induction false} NoneUnjudged(batch: Batch, log: seq<LogItem>)
    requires forall a | a in batch :: Settled(log, a.identifier)
    ensures Unjudged(batch, log) == []
  {
    if batch != [] {
      assert batch[|batch| - 1] in batch;
      NoneUnjudged(batch[..|batch| - 1], log);
    }
  }

  lemma SettledAppend(log: seq<LogItem>, item: LogItem, id: nat)
    ensures Settled(log + [item], id) <==> Settled(log, id) || (item.Verdict? && item.identifier == id)
  {
    assert item in log + [item];
  }

  lemma UnitsSnoc(batch: Batch, a: Aggregate, k: Key)
    ensures UnitsIn(batch + [a], k) == UnitsIn(batch, k) + if AggregateKey(a) == k then a.units else 0
  {
    assert (batch + [a])[..|batch|] == batch;
  }

  /** One verdict takes one aggregate out of the unjudged. */
  lemma {:induction false} OneVerdict(batch: Batch, a: Aggregate, log: seq<LogItem>, o: Outcome, k: Key)
    requires DistinctIds(batch) && a in batch && !Settled(log, a.identifier)
    ensures UnitsIn(Unjudged(batch, log), k)
            == UnitsIn(Unjudged(batch, log + [Verdict(a.identifier, o)]), k)
               + if AggregateKey(a) == k then a.units else 0
  {
    var init, last := batch[..|batch| - 1], batch[|batch| - 1];
    var log' := log + [Verdict(a.identifier, o)];
    SettledAppend(log, Verdict(a.identifier, o), last.identifier);
    if last == a {
      forall b | b in init ensures Settled(log, b.identifier) <==> Settled(log', b.identifier) {
        SettledAppend(log, Verdict(a.identifier, o), b.identifier);
      }
      SameVerdicts(init, log, log');
      UnitsSnoc(Unjudged(init, log), a, k);
      assert Unjudged(init, log') + [] == Unjudged(init, log');
    } else {
      assert batch == init + [last] && a in init;
      assert last.identifier != a.identifier;
      OneVerdict(init, a, log, o, k);
      if Settled(log, last.identifier) {
        assert Unjudged(init, log) + [] == Unjudged(init, log) && Unjudged(init, log') + [] == Unjudged(init, log');
      } else {
        UnitsSnoc(Unjudged(init, log), last, k);
        UnitsSnoc(Unjudged(init, log'), last, k);
      }
    }
  }

  /** A definitive answer moves an aggregate's units from unjudged to judged. */
  lemma VerdictMoves(batch: Batch, a: Aggregate, log: seq<LogItem>, o: Outcome, issued: map<nat, Aggregate>, k: Key)
    requires DistinctIds(batch) && a in batch && !Settled(log, a.identifier)
    requires a.identifier in issued && issued[a.identifier] == a
    ensures var log' := log + [Verdict(a.identifier, o)];
            AllJudged(log', issued, k) + UnitsIn(Unjudged(batch, log'), k)
                == AllJudged(log, issued, k) + UnitsIn(Unjudged(batch, log), k)
  {
    OneVerdict(batch, a, log, o, k);
    JudgedAppend(log, Verdict(a.identifier, o), issued, k, true);
    JudgedAppend(log, Verdict(a.identifier, o), issued, k, false);
  }

  predicate OnBatch(u: Unresolved, batch: Batch, issued: map<nat, Aggregate>, log: seq<LogItem>) {
    && (forall j | 0 <= j < |u| :: u[j].1 in batch && !Settled(log, u[j].1.identifier)
          && u[j].1.identifier in issued && issued[u[j].1.identifier] == u[j].1)
    && (forall i, j | 0 <= i < j < |u| :: u[i].1.identifier != u[j].1.identifier)
  }

  lemma NotYetJudged(batch: Batch, u: Unresolved, outcomes: seq<Outcome>, log: seq<LogItem>,
                     issued: map<nat, Aggregate>, n: nat)
    requires Disciplined(log) && OnBatch(u, batch, issued, log) && n < |u| && n < |outcomes|
    ensures !Settled(WithVerdicts(log, u, outcomes, n), u[n].1.identifier)
  {
    AnsweredExact(log, u, outcomes, n);
  }

  /** Units judged, plus units of the batch still unjudged. */
  function Total(log: seq<LogItem>, issued: map<nat, Aggregate>, batch: Batch, k: Key): nat {
    AllJudged(log, issued, k) + UnitsIn(Unjudged(batch, log), k)
  }

  lemma AnswerMoves(batch: Batch, u: Unresolved, outcomes: seq<Outcome>, log: seq<LogItem>, before: seq<LogItem>,
                    issued: map<nat, Aggregate>, k: Key, n: nat)
    requires DistinctIds(batch) && Disciplined(log) && OnBatch(u, batch, issued, log) && n < |u| && n < |outcomes|
    requires before == WithVerdicts(log, u, outcomes, n)
    ensures Total(WithVerdicts(log, u, outcomes, n + 1), issued, batch, k) == Total(before, issued, batch, k)
  {
    NotYetJudged(batch, u, outcomes, log, issued, n);
    if Definitive(outcomes[n]) {
      VerdictMoves(batch, u[n].1, before, outcomes[n], issued, k);
    } else {
      assert before + [] == before;
    }
  }

  lemma {:induction false} AnswersMove(batch: Batch, u: Unresolved, outcomes: seq<Outcome>, log: seq<LogItem>,
                                       issued: map<nat, Aggregate>, k: Key, n: nat)
    requires DistinctIds(batch) && Disciplined(log) && OnBatch(u, batch, issued, log) && n <= |u| && n <= |outcomes|
    ensures Total(WithVerdicts(log, u, outcomes, n), issued, batch, k) == Total(log, issued, batch, k)
  {
    if n > 0 {
      AnswersMove(batch, u, outcomes, log, issued, k, n - 1);
      AnswerMoves(batch, u, outcomes, log, WithVerdicts(log, u, outcomes, n - 1), issued, k, n - 1);
    }
  }

  // ---------------------------------------------------------------- every move keeps the tally

  lemma AnswerEffect(limit: nat, capacity: nat, s: System, outcomes: seq<Outcome>)
    requires OneBatch(s.p) && Agreed(s) && Possible(limit, s, Answer(outcomes))
    ensures var s' := Do(limit, capacity, s, Answer(outcomes));
            && s'.p == s.p
            && s'.log == if |outcomes| == |s.attempt.unresolved|
                 then WithVerdicts(s.log, s.attempt.unresolved, outcomes, |outcomes|) else s.log
  {
  }

  lemma SubmittedOnBatch(s: System)
    requires OneBatch(s.p) && Agreed(s) && s.attempt.Submitted?
    ensures DistinctIds(CurrentBatch(s.p)) && OnBatch(s.attempt.unresolved, CurrentBatch(s.p), s.p.issued, s.log)
  {
    UnresolvedIds(s);
    var u, batch := s.attempt.unresolved, s.x.progress.value.batch;
    forall j | 0 <= j < |u| ensures u[j].1 in batch && Issued(s.p, u[j].1) {
      assert u[j].1 == batch[u[j].0];
    }
  }

  lemma TalliedAnswer(limit: nat, capacity: nat, s: System, outcomes: seq<Outcome>, k: Key)
    requires Invariant(limit, s) && Tallied(s, k) && Possible(limit, s, Answer(outcomes))
    ensures Tallied(Do(limit, capacity, s, Answer(outcomes)), k)
  {
    AnswerEffect(limit, capacity, s, outcomes);
    if |outcomes| == |s.attempt.unresolved| {
      SubmittedOnBatch(s);
      AnswersMove(CurrentBatch(s.p), s.attempt.unresolved, outcomes, s.log, s.p.issued, k, |outcomes|);
    }
  }

  lemma TalliedBegin(limit: nat, capacity: nat, s: System, k: Key)
    requires Invariant(limit, s) && Tallied(s, k) && Possible(limit, s, BeginMove)
    ensures Tallied(Do(limit, capacity, s, BeginMove), k)
  {
    ResubmitsTheUnjudged(limit, capacity, s);
    BeginEnds(limit, capacity, s);
    var s' := Do(limit, capacity, s, BeginMove);
    var rest := Unjudged(s.p.phase.batch, s.log);
    if rest != [] {
      SubmissionJudgesNothing(s.log, rest, CurrentBatch(s.p), s.p.issued, k);
    } else {
      assert s.log + [] == s.log;
    }
  }

  lemma SubmissionJudgesNothing(log: seq<LogItem>, rest: Batch, batch: Batch, issued: map<nat, Aggregate>, k: Key)
    ensures var log' := log + [Submission(rest)];
            AllJudged(log', issued, k) == AllJudged(log, issued, k) && Unjudged(batch, log') == Unjudged(batch, log)
  {
    JudgedAppend(log, Submission(rest), issued, k, true);
    JudgedAppend(log, Submission(rest), issued, k, false);
    forall a | a in batch ensures Settled(log, a.identifier) <==> Settled(log + [Submission(rest)], a.identifier) {
      SettledAppend(log, Submission(rest), a.identifier);
    }
    SameVerdicts(batch, log, log + [Submission(rest)]);
  }

  lemma TalliedDrain(limit: nat, capacity: nat, s: System, batch: Batch, k: Key)
    requires Invariant(limit, s) && Tallied(s, k) && Possible(limit, s, Pipeline(Prepare(batch)))
    requires !TakesRetry(CompleteBatch, s.p.buffer)
    ensures Tallied(Do(limit, capacity, s, Pipeline(Prepare(batch))), k)
  {
    var s' := Do(limit, capacity, s, Pipeline(Prepare(batch)));
    assert Current(s.p).None? && CurrentBatch(s.p) == [] && CurrentBatch(s'.p) == batch;
    DrainNamesAfresh(limit, s, batch);
    forall i | 0 <= i < |batch| ensures !Settled(s.log, batch[i].identifier) {
      assert batch[i] in batch;
    }
    AllUnjudged(batch, s.log);
    assert s'.p.issued == s.p.issued + Naming(batch) && s'.log == s.log && s'.p.committed == s.p.committed;
    JudgedStays(s.log, s.p.issued, s'.p.issued, k, true);
    JudgedStays(s.log, s.p.issued, s'.p.issued, k, false);
  }

  lemma CommitEffect(limit: nat, capacity: nat, s: System)
    requires OneBatch(s.p) && Agreed(s) && Possible(limit, s, Pipeline(Commit))
    ensures var s' := Do(limit, capacity, s, Pipeline(Commit));
            && s'.log == s.log && s'.p.issued == s.p.issued && s'.p.committed == s.p.committed + [CurrentBatch(s.p)]
            && CurrentBatch(s'.p) == []
            && forall a | a in CurrentBatch(s.p) :: Settled(s.log, a.identifier)
  {
    OtherStepKeeps(limit, capacity, s, Commit);
  }

  lemma CommitBalances(log: seq<LogItem>, issued: map<nat, Aggregate>, batch: Batch, committed: seq<Batch>, k: Key)
    requires Balanced(log, issued, batch, committed, k) && forall a | a in batch :: Settled(log, a.identifier)
    ensures Balanced(log, issued, [], committed + [batch], k)
  {
    NoneUnjudged(batch, log);
    UnitsAppend(committed, batch, k);
  }

  lemma OtherEffect(limit: nat, capacity: nat, s: System, step: Step)
    requires OneBatch(s.p) && Agreed(s) && Possible(limit, s, Pipeline(step))
    requires !step.Commit? && !(step.Prepare? && !TakesRetry(CompleteBatch, s.p.buffer))
    ensures var s' := Do(limit, capacity, s, Pipeline(step));
            && s'.log == s.log && s'.p.issued == s.p.issued && s'.p.committed == s.p.committed
            && CurrentBatch(s'.p) == CurrentBatch(s.p)
  {
    match step
    case RecordUsage(e) => assert Record(s.p.buffer, limit, e).0.retry == s.p.buffer.retry;
    case Prepare(batch) => assert s.p.buffer.retry == [batch] && batch != [];
    case Restore => assert s.p.buffer.retry == [];
    case _ =>
  }

  lemma TalliedPipeline(limit: nat, capacity: nat, s: System, step: Step, k: Key)
    requires Invariant(limit, s) && Tallied(s, k) && Possible(limit, s, Pipeline(step))
    ensures Tallied(Do(limit, capacity, s, Pipeline(step)), k)
  {
    if step.Commit? {
      CommitEffect(limit, capacity, s);
      CommitBalances(s.log, s.p.issued, CurrentBatch(s.p), s.p.committed, k);
    } else if step.Prepare? && !TakesRetry(CompleteBatch, s.p.buffer) {
      TalliedDrain(limit, capacity, s, step.batch, k);
    } else {
      OtherEffect(limit, capacity, s, step);
    }
  }

  lemma TalliedStep(limit: nat, capacity: nat, s: System, move: Move, k: Key)
    requires Invariant(limit, s) && Tallied(s, k) && Possible(limit, s, move)
    ensures Tallied(Do(limit, capacity, s, move), k)
  {
    match move
    case Pipeline(step) => TalliedPipeline(limit, capacity, s, step, k);
    case BeginMove => TalliedBegin(limit, capacity, s, k);
    case Answer(outcomes) => TalliedAnswer(limit, capacity, s, outcomes, k);
    case _ =>
      var s' := Do(limit, capacity, s, move);
      assert s'.log == s.log && s'.p == s.p;
  }

  lemma {:induction false} TalliedRun(limit: nat, capacity: nat, moves: seq<Move>, k: Key)
    requires RunAll(limit, capacity, moves).Some?
    ensures Tallied(RunAll(limit, capacity, moves).value, k)
  {
    if moves != [] {
      var n := |moves| - 1;
      TalliedRun(limit, capacity, moves[..n], k);
      TalliedStep(limit, capacity, RunAll(limit, capacity, moves[..n]).value, moves[n], k);
    }
  }

  lemma OneBatchUnits(p: World, k: Key)
    requires OneBatch(p)
    ensures UnitsInAll(p.buffer.retry, k) + UnitsIn(Held(p.phase), k) == UnitsIn(CurrentBatch(p), k)
  {
    if p.buffer.retry != [] {
      UnitsFront(p.buffer.retry, k);
      assert p.buffer.retry[1..] == [];
    }
  }

  /** Over whole runs, for each customer and meter: the units recorded are those still pending, those under way
      without a verdict, those the provider accepted and those it permanently rejected, each counted once. */
  lemma UnitsReconcile(limit: nat, capacity: nat, moves: seq<Move>, k: Key)
    requires RunAll(limit, capacity, moves).Some?
    ensures var s := RunAll(limit, capacity, moves).value;
            RecordedUnits(s.p.entries, k)
            == PendingUnits(s.p.buffer, k) + UnjudgedUnits(s, k)
               + JudgedUnits(s.log, s.p.issued, k, true) + JudgedUnits(s.log, s.p.issued, k, false)
  {
    var s := RunAll(limit, capacity, moves).value;
    TalliedRun(limit, capacity, moves, k);
    OneBatchUnits(s.p, k);
    assert LedgerAt(s.p, k);
  }
}
