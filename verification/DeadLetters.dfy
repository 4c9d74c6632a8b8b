/** What a dead letter is worth: over whole runs, the usage a provider rejected is kept as it was submitted. */
module DeadLetters {
  import opened Prelude
  import opened B = UsageBuffer
  import opened P = BillingPipeline
  import opened X = MeterEventExporter
  import opened S = Settlement

  /** A letter left by a verdict carries the aggregate as it was named and the code of that verdict. */
  predicate LetterTrue(p: World, log: seq<LogItem>, l: DeadLetter) {
    l.reason.SynchronousProviderRejection? ==>
      Issued(p, l.aggregate) && Verdict(l.aggregate.identifier, PermanentRejection(l.reason.code)) in log
  }

  /** Every permanent rejection has its letter: the aggregate itself, unless the application had already handed in a
      letter about the same identifier. */
  predicate Kept(x: ExporterState, issued: map<nat, Aggregate>, id: nat, code: string) {
    exists l | l in x.letters + x.drained + x.discarded ::
      Id(l) == id
      && (l.reason.AsynchronousProviderRejection?
          || (id in issued && l == DeadLetter(issued[id], SynchronousProviderRejection(code))))
  }

  ghost predicate Truthful(s: System) {
    && (forall l | Has(s.x, l) :: LetterTrue(s.p, s.log, l))
    && (forall item | item in s.log && item.Verdict? && item.outcome.PermanentRejection? ::
          Kept(s.x, s.p.issued, item.identifier, item.outcome.code))
  }

  /** Where letters are only added, and names and verdicts only grow, everything kept stays kept. */
  lemma StaysKept(x: ExporterState, x': ExporterState, issued: map<nat, Aggregate>, issued': map<nat, Aggregate>,
                  id: nat, code: string)
    requires Kept(x, issued, id, code) && forall l | Has(x, l) :: Has(x', l)
    requires forall i | i in issued :: i in issued' && issued'[i] == issued[i]
    ensures Kept(x', issued', id, code)
  {
    var l :| l in x.letters + x.drained + x.discarded
             && Id(l) == id
             && (l.reason.AsynchronousProviderRejection?
                 || (id in issued && l == DeadLetter(issued[id], SynchronousProviderRejection(code))));
    assert Has(x, l) && Has(x', l);
    assert l in x'.letters + x'.drained + x'.discarded;
  }

  lemma OthersTruthful(s: System, s': System)
    requires Truthful(s) && s'.log == s.log
    requires forall l | Has(s.x, l) :: Has(s'.x, l)
    requires forall l | Has(s'.x, l) && !Has(s.x, l) :: l.reason.AsynchronousProviderRejection?
    requires forall id | id in s.p.issued :: id in s'.p.issued && s'.p.issued[id] == s.p.issued[id]
    ensures Truthful(s')
  {
    forall l | Has(s'.x, l) ensures LetterTrue(s'.p, s'.log, l) {
      if Has(s.x, l) {
        assert LetterTrue(s.p, s.log, l);
      }
    }
    forall item | item in s'.log && item.Verdict? && item.outcome.PermanentRejection?
      ensures Kept(s'.x, s'.p.issued, item.identifier, item.outcome.code)
    {
      StaysKept(s.x, s'.x, s.p.issued, s'.p.issued, item.identifier, item.outcome.code);
    }
  }

  lemma SubmissionTruthful(s: System, s': System, batch: Batch)
    requires Truthful(s) && s'.p == s.p && s'.log == s.log + [Submission(batch)]
    requires s'.x.letters == s.x.letters && s'.x.drained == s.x.drained && s'.x.discarded == s.x.discarded
    ensures Truthful(s')
  {
    forall l | Has(s'.x, l) ensures LetterTrue(s'.p, s'.log, l) {
      assert Has(s.x, l) && LetterTrue(s.p, s.log, l);
    }
    forall item | item in s'.log && item.Verdict? && item.outcome.PermanentRejection?
      ensures Kept(s'.x, s'.p.issued, item.identifier, item.outcome.code)
    {
      assert item in s.log;
      StaysKept(s.x, s'.x, s.p.issued, s'.p.issued, item.identifier, item.outcome.code);
    }
  }

  /** The verdicts of a round are logged. */
  lemma {:induction false} VerdictsLogged(log: seq<LogItem>, u: Unresolved, outcomes: seq<Outcome>, n: nat, j: nat)
    requires j < n <= |u| && n <= |outcomes| && Definitive(outcomes[j])
    ensures Verdict(u[j].1.identifier, outcomes[j]) in WithVerdicts(log, u, outcomes, n)
  {
    if j < n - 1 {
      VerdictsLogged(log, u, outcomes, n - 1, j);
    }
  }

  lemma {:induction false} LogGrows(log: seq<LogItem>, u: Unresolved, outcomes: seq<Outcome>, n: nat)
    requires n <= |u| && n <= |outcomes|
    ensures forall item | item in log :: item in WithVerdicts(log, u, outcomes, n)
  {
    if n > 0 {
      LogGrows(log, u, outcomes, n - 1);
    }
  }

  /** What the round needs of the state before it: distinct, issued, unjudged identifiers. */
  predicate Answerable(s: System, u: Unresolved) {
    && (forall j | 0 <= j < |u| :: Issued(s.p, u[j].1) && !Settled(s.log, u[j].1.identifier))
    && (forall i, j | 0 <= i < j < |u| :: u[i].1.identifier != u[j].1.identifier)
  }

  lemma AnswerTrue(s: System, capacity: nat, u: Unresolved, outcomes: seq<Outcome>, l: DeadLetter)
    requires Truthful(s) && Answerable(s, u) && |outcomes| == |u|
    requires Has(SettleFirst(s.x, capacity, u, outcomes, |u|), l)
    ensures LetterTrue(s.p, WithVerdicts(s.log, u, outcomes, |u|), l)
  {
    SettleFirstLetters(s.x, capacity, u, outcomes, |u|);
    LogGrows(s.log, u, outcomes, |u|);
    if Has(s.x, l) {
      assert LetterTrue(s.p, s.log, l);
    } else {
      var j :| 0 <= j < |u| && outcomes[j].PermanentRejection?
               && l == DeadLetter(u[j].1, SynchronousProviderRejection(outcomes[j].code));
      VerdictsLogged(s.log, u, outcomes, |u|, j);
    }
  }

  /** A rejection of this round finds its letter, because nobody but the application can have spoken of it before. */
  lemma AnswerKept(s: System, capacity: nat, u: Unresolved, outcomes: seq<Outcome>, j: nat)
    requires Truthful(s) && Answerable(s, u) && |outcomes| == |u| && j < |u| && outcomes[j].PermanentRejection?
    ensures Kept(SettleFirst(s.x, capacity, u, outcomes, |u|), s.p.issued, u[j].1.identifier, outcomes[j].code)
  {
    SettleFirstLetters(s.x, capacity, u, outcomes, |u|);
    var y := SettleFirst(s.x, capacity, u, outcomes, |u|);
    var letter := DeadLetter(u[j].1, SynchronousProviderRejection(outcomes[j].code));
    assert Rejects(u, outcomes, |u|, letter);
    assert Issued(s.p, u[j].1);
    if Has(y, letter) {
      assert letter in y.letters + y.drained + y.discarded;
    } else {
      var l :| l in s.x.letters && Id(l) == Id(letter);
      assert Has(s.x, l) && Has(y, l) && LetterTrue(s.p, s.log, l);
      assert l in y.letters + y.drained + y.discarded;
    }
  }

  lemma AnswersTruthful(s: System, s': System, capacity: nat, u: Unresolved, outcomes: seq<Outcome>)
    requires Truthful(s) && Answerable(s, u) && |outcomes| == |u| && s'.p == s.p && Disciplined(s.log)
    requires var y := SettleFirst(s.x, capacity, u, outcomes, |u|);
             s'.x.letters == y.letters && s'.x.drained == y.drained && s'.x.discarded == y.discarded
    requires s'.log == WithVerdicts(s.log, u, outcomes, |u|)
    ensures Truthful(s')
  {
    var y := SettleFirst(s.x, capacity, u, outcomes, |u|);
    assert forall l :: Has(s'.x, l) <==> Has(y, l);
    forall l | Has(s'.x, l) ensures LetterTrue(s'.p, s'.log, l) {
      AnswerTrue(s, capacity, u, outcomes, l);
    }
    SettleFirstLetters(s.x, capacity, u, outcomes, |u|);
    AnsweredExact(s.log, u, outcomes, |u|);
    forall item | item in s'.log && item.Verdict? && item.outcome.PermanentRejection?
      ensures Kept(s'.x, s'.p.issued, item.identifier, item.outcome.code)
    {
      if item in s.log {
        StaysKept(s.x, s'.x, s.p.issued, s'.p.issued, item.identifier, item.outcome.code);
      } else {
        var j :| 0 <= j < |u| && item == Verdict(u[j].1.identifier, outcomes[j]);
        AnswerKept(s, capacity, u, outcomes, j);
        StaysKept(y, s'.x, s.p.issued, s'.p.issued, item.identifier, item.outcome.code);
      }
    }
  }

  lemma AnswerMoveTruthful(limit: nat, capacity: nat, s: System, outcomes: seq<Outcome>)
    requires Invariant(limit, s) && Truthful(s) && Possible(limit, s, Answer(outcomes))
    ensures Truthful(Do(limit, capacity, s, Answer(outcomes)))
  {
    var s' := Do(limit, capacity, s, Answer(outcomes));
    var u := s.attempt.unresolved;
    if |outcomes| == |u| {
      UnresolvedIds(s);
      forall j | 0 <= j < |u| ensures Issued(s.p, u[j].1) {
        assert u[j].1 == s.x.progress.value.batch[u[j].0];
      }
      AnswersTruthful(s, s', capacity, u, outcomes);
    } else {
      OthersTruthful(s, s');
    }
  }

  lemma BeginMoveTruthful(limit: nat, capacity: nat, s: System)
    requires Invariant(limit, s) && Truthful(s) && Possible(limit, s, BeginMove)
    ensures Truthful(Do(limit, capacity, s, BeginMove))
  {
    var s' := Do(limit, capacity, s, BeginMove);
    var rest := Unjudged(s.p.phase.batch, s.log);
    ResubmitsTheUnjudged(limit, capacity, s);
    BeginEnds(limit, capacity, s);
    BeginExactly(s.x, s.leased, s.p.phase.batch);
    if rest == [] {
      assert s.log + [] == s.log;
      OthersTruthful(s, s');
    } else {
      SubmissionTruthful(s, s', rest);
    }
  }

  lemma PipelineTruthful(limit: nat, capacity: nat, s: System, step: Step)
    requires Invariant(limit, s) && Truthful(s) && Possible(limit, s, Pipeline(step))
    ensures Truthful(Do(limit, capacity, s, Pipeline(step)))
  {
    var s' := Do(limit, capacity, s, Pipeline(step));
    forall id | id in s.p.issued ensures id in s'.p.issued && s'.p.issued[id] == s.p.issued[id] {
      IssuedStays(Settings(limit), s.p, step, id);
    }
    assert s'.x == s.x && s'.log == s.log;
    OthersTruthful(s, s');
  }

  lemma LettersTruthful(limit: nat, capacity: nat, s: System, move: Move)
    requires Truthful(s) && Possible(limit, s, move) && (move.TakeLetters? || move.QuarantineAsync?)
    requires s.x.progress.Some? ==> WellFormed(s.x.progress.value)
    ensures Truthful(Do(limit, capacity, s, move))
  {
    var s' := Do(limit, capacity, s, move);
    if move.QuarantineAsync? {
      QuarantineLetters(s.x, capacity, DeadLetter(move.aggregate, AsynchronousProviderRejection(move.code)));
    }
    OthersTruthful(s, s');
  }

  lemma TruthfulStep(limit: nat, capacity: nat, s: System, move: Move)
    requires Invariant(limit, s) && Truthful(s) && Possible(limit, s, move)
    ensures Truthful(Do(limit, capacity, s, move))
  {
    match move
    case Pipeline(step) => PipelineTruthful(limit, capacity, s, step);
    case BeginMove => BeginMoveTruthful(limit, capacity, s);
    case Answer(outcomes) => AnswerMoveTruthful(limit, capacity, s, outcomes);
    case TakeLetters => LettersTruthful(limit, capacity, s, move);
    case QuarantineAsync(_, _) => LettersTruthful(limit, capacity, s, move);
    case _ => OthersTruthful(s, Do(limit, capacity, s, move));
  }

  /** Over whole runs: every letter left by a verdict carries the rejected aggregate exactly as it was named, under the
      code of that verdict; and every permanent rejection has such a letter, retained, drained or dropped and counted,
      unless the application had handed in one about the same identifier before. */
  lemma {:induction false} RejectedUsageIsKept(limit: nat, capacity: nat, moves: seq<Move>)
    requires RunAll(limit, capacity, moves).Some?
    ensures Truthful(RunAll(limit, capacity, moves).value)
  {
    if moves != [] {
      var n := |moves| - 1;
      RejectedUsageIsKept(limit, capacity, moves[..n]);
      TruthfulStep(limit, capacity, RunAll(limit, capacity, moves[..n]).value, moves[n]);
    }
  }
}
