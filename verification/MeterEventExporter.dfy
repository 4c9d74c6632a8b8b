/** The partial-retry exporter: one batch at a time, resolved aggregate by aggregate, with a bounded dead-letter
    queue. */
module MeterEventExporter {
  import opened Prelude
  import opened B = UsageBuffer

  datatype Outcome = Accepted | RetryableFailure(code: string) | PermanentRejection(code: string)

  datatype Reason = SynchronousProviderRejection(code: string) | AsynchronousProviderRejection(code: string)

  datatype DeadLetter = DeadLetter(aggregate: Aggregate, reason: Reason)

  datatype Progress = Progress(batch: Batch, completed: seq<bool>)

  datatype ExportError = AlreadyInProgress | IncompleteBatchFirst

  /** What the exporter means. `discarded` and `drained` are history: letters dropped for want of room, and letters
      handed to the application. */
  datatype ExporterState = ExporterState(letters: seq<DeadLetter>, discarded: seq<DeadLetter>, drained: seq<DeadLetter>,
                         progress: Option<Progress>)

  const FRESH := ExporterState([], [], [], None)

  type Unresolved = seq<(nat, Aggregate)>

  predicate Definitive(o: Outcome) {
    !o.RetryableFailure?
  }

  function Id(letter: DeadLetter): nat {
    letter.aggregate.identifier
  }

  predicate Holds(letters: seq<DeadLetter>, id: nat) {
    exists letter | letter in letters :: Id(letter) == id
  }

  /** Retained, drained, or dropped and counted. */
  predicate AccountedFor(x: ExporterState, id: nat) {
    Holds(x.letters, id) || Holds(x.drained, id) || Holds(x.discarded, id)
  }

  /** A letter joins the queue unless its identifier is there; what no longer fits leaves at the front. */
  function Quarantine(x: ExporterState, capacity: nat, letter: DeadLetter): ExporterState {
    if Holds(x.letters, Id(letter)) then x
    else
      var all := x.letters + [letter];
      var excess := if |all| > capacity then |all| - capacity else 0;
      x.(letters := all[excess..], discarded := x.discarded + all[..excess])
  }

  function Evicted(x: ExporterState): ExporterState
    requires x.letters != []
  {
    x.(letters := x.letters[1..], discarded := x.discarded + [x.letters[0]])
  }

  function Completed(x: ExporterState, index: nat): ExporterState {
    if x.progress.Some? && index < |x.progress.value.completed| then
      x.(progress := Some(x.progress.value.(completed := x.progress.value.completed[index := true])))
    else x
  }

  function Settle(x: ExporterState, capacity: nat, index: nat, a: Aggregate, o: Outcome): ExporterState {
    match o
    case Accepted => Completed(x, index)
    case RetryableFailure(_) => x
    case PermanentRejection(code) =>
      Completed(Quarantine(x, capacity, DeadLetter(a, SynchronousProviderRejection(code))), index)
  }

  /** The first `n` answers taken in order. */
  function SettleFirst(x: ExporterState, capacity: nat, unresolved: Unresolved, outcomes: seq<Outcome>,
                       n: nat): ExporterState
    requires n <= |unresolved| && n <= |outcomes|
  {
    if n == 0 then x
    else Settle(SettleFirst(x, capacity, unresolved, outcomes, n - 1), capacity,
                unresolved[n - 1].0, unresolved[n - 1].1, outcomes[n - 1])
  }

  predicate WellFormed(p: Progress) {
    |p.completed| == |p.batch|
  }

  /** The first `n` places of the batch that are still unresolved, with their positions. */
  function UnresolvedFirst(p: Progress, n: nat): Unresolved
    requires WellFormed(p) && n <= |p.batch|
  {
    if n == 0 then []
    else UnresolvedFirst(p, n - 1) + if p.completed[n - 1] then [] else [(n - 1, p.batch[n - 1])]
  }

  function UnresolvedOf(p: Progress): Unresolved
    requires WellFormed(p)
  {
    UnresolvedFirst(p, |p.batch|)
  }

  function Begin(x: ExporterState, leased: bool, batch: Batch): Result<ExporterState, ExportError> {
    if leased then Err(AlreadyInProgress)
    else if x.progress.None? then Ok(x.(progress := Some(Progress(batch, seq(|batch|, _ => false)))))
    else if x.progress.value.batch != batch then Err(IncompleteBatchFirst)
    else Ok(x)
  }

  /** What the provider answered, or how waiting for it ended. */
  datatype Reply = Answered(outcomes: seq<Outcome>) | Failed | Interrupted

  /** One whole export: the state it leaves, and whether the batch is done. */
  function ExportOnce(x: ExporterState, capacity: nat, leased: bool, batch: Batch, reply: Reply): (ExporterState, bool)
    requires x.progress.Some? ==> WellFormed(x.progress.value)
  {
    match Begin(x, leased, batch)
    case Err(_) => (x, false)
    case Ok(begun) =>
      var unresolved := UnresolvedOf(begun.progress.value);
      if unresolved == [] then (begun.(progress := None), true)
      else if !reply.Answered? || |reply.outcomes| != |unresolved| then (begun, false)
      else
        var settled := SettleFirst(begun, capacity, unresolved, reply.outcomes, |unresolved|);
        if exists j | 0 <= j < |unresolved| :: !Definitive(reply.outcomes[j]) then (settled, false)
        else (settled.(progress := None), true)
  }

  // ---------------------------------------------------------------- what the specification promises

  /** A rejected aggregate is never lost track of, and nothing already tracked is forgotten. */
  lemma QuarantineAccounts(x: ExporterState, capacity: nat, letter: DeadLetter)
    ensures AccountedFor(Quarantine(x, capacity, letter), Id(letter))
    ensures forall id | AccountedFor(x, id) :: AccountedFor(Quarantine(x, capacity, letter), id)
    ensures var y := Quarantine(x, capacity, letter);
            y != x ==> |y.letters| + |y.discarded| == |x.letters| + |x.discarded| + 1
  {
    var y := Quarantine(x, capacity, letter);
    if y != x {
      var all := x.letters + [letter];
      var excess := if |all| > capacity then |all| - capacity else 0;
      assert all == all[..excess] + all[excess..];
      forall l | l in all ensures l in y.letters || l in y.discarded {
        assert l in all[..excess] + all[excess..];
      }
      assert letter in all;
    }
  }

  /** A letter the exporter has, wherever it is. */
  predicate Has(x: ExporterState, letter: DeadLetter) {
    letter in x.letters || letter in x.drained || letter in x.discarded
  }

  /** The queue is a queue: it keeps the newest letters in the order they came, drops the oldest, and only for want of
      room. */
  lemma QuarantineExact(x: ExporterState, capacity: nat, letter: DeadLetter)
    requires |x.letters| <= capacity
    ensures var y := Quarantine(x, capacity, letter);
            && |y.letters| <= capacity && y.drained == x.drained && y.progress == x.progress
            && x.discarded <= y.discarded
            && (if exists l | l in x.letters :: l.aggregate.identifier == letter.aggregate.identifier then y == x
                else
                  && x.letters + [letter] == y.discarded[|x.discarded|..] + y.letters
                  && (y.discarded != x.discarded ==> |y.letters| == capacity)
                  && |y.discarded| <= |x.discarded| + 1)
  {
    var all := x.letters + [letter];
    var excess := if |all| > capacity then |all| - capacity else 0;
    assert all == all[..excess] + all[excess..];
  }

  /** Quarantine adds the letter it was given, whole, and no other. */
  lemma QuarantineLetters(x: ExporterState, capacity: nat, letter: DeadLetter)
    ensures var y := Quarantine(x, capacity, letter);
            forall l :: Has(y, l) <==> Has(x, l) || (l == letter && !Holds(x.letters, Id(letter)))
  {
    var y := Quarantine(x, capacity, letter);
    if y != x {
      var all := x.letters + [letter];
      var excess := if |all| > capacity then |all| - capacity else 0;
      assert all == all[..excess] + all[excess..];
      forall l ensures Has(y, l) <==> Has(x, l) || l == letter {
        assert l in all <==> l in all[..excess] || l in all[excess..];
      }
    }
  }

  /** The letter that a permanent rejection leaves: the aggregate as it was submitted, and the provider's code. */
  predicate Rejects(unresolved: Unresolved, outcomes: seq<Outcome>, n: nat, letter: DeadLetter)
    requires n <= |unresolved| && n <= |outcomes|
  {
    exists j | 0 <= j < n ::
      outcomes[j].PermanentRejection?
      && letter == DeadLetter(unresolved[j].1, SynchronousProviderRejection(outcomes[j].code))
  }

  /** Answers leave exactly such letters, and lose none that were there; where the queue already held a letter about the
      same identifier, that one stays instead. */
  lemma {:induction false} SettleFirstLetters(x: ExporterState, capacity: nat, unresolved: Unresolved,
                                              outcomes: seq<Outcome>, n: nat)
    requires n <= |unresolved| && n <= |outcomes|
    requires forall i, j | 0 <= i < j < |unresolved| :: unresolved[i].1.identifier != unresolved[j].1.identifier
    ensures var y := SettleFirst(x, capacity, unresolved, outcomes, n);
            && (forall l | Has(x, l) :: Has(y, l))
            && (forall l | Has(y, l) :: Has(x, l) || Rejects(unresolved, outcomes, n, l))
            && (forall l | Rejects(unresolved, outcomes, n, l) :: Has(y, l) || Holds(x.letters, Id(l)))
            && (forall l | l in y.letters :: l in x.letters || Rejects(unresolved, outcomes, n, l))
  {
    if n > 0 {
      SettleFirstLetters(x, capacity, unresolved, outcomes, n - 1);
      var before := SettleFirst(x, capacity, unresolved, outcomes, n - 1);
      if outcomes[n - 1].PermanentRejection? {
        OneRejection(x, before, capacity, unresolved, outcomes, n);
      } else {
        forall l ensures Rejects(unresolved, outcomes, n, l) <==> Rejects(unresolved, outcomes, n - 1, l) {
        }
      }
    }
  }

  lemma OneRejection(x: ExporterState, before: ExporterState, capacity: nat, unresolved: Unresolved,
                     outcomes: seq<Outcome>, n: nat)
    requires 0 < n <= |unresolved| && n <= |outcomes| && outcomes[n - 1].PermanentRejection?
    requires forall i, j | 0 <= i < j < |unresolved| :: unresolved[i].1.identifier != unresolved[j].1.identifier
    requires forall l | Has(x, l) :: Has(before, l)
    requires forall l | Has(before, l) :: Has(x, l) || Rejects(unresolved, outcomes, n - 1, l)
    requires forall l | Rejects(unresolved, outcomes, n - 1, l) :: Has(before, l) || Holds(x.letters, Id(l))
    requires forall l | l in before.letters :: l in x.letters || Rejects(unresolved, outcomes, n - 1, l)
    ensures var letter := DeadLetter(unresolved[n - 1].1, SynchronousProviderRejection(outcomes[n - 1].code));
            var y := Quarantine(before, capacity, letter);
            && (forall l | Has(x, l) :: Has(y, l))
            && (forall l | Has(y, l) :: Has(x, l) || Rejects(unresolved, outcomes, n, l))
            && (forall l | Rejects(unresolved, outcomes, n, l) :: Has(y, l) || Holds(x.letters, Id(l)))
            && (forall l | l in y.letters :: l in x.letters || Rejects(unresolved, outcomes, n, l))
  {
    var letter := DeadLetter(unresolved[n - 1].1, SynchronousProviderRejection(outcomes[n - 1].code));
    QuarantineLetters(before, capacity, letter);
    forall l ensures Rejects(unresolved, outcomes, n, l) <==> Rejects(unresolved, outcomes, n - 1, l) || l == letter {
    }
    // A letter about this identifier was not left by an earlier answer.
    if Holds(before.letters, Id(letter)) {
      var l :| l in before.letters && Id(l) == Id(letter);
      assert l in x.letters;
    }
  }

  /** A new letter goes to the back, after the oldest has left if the queue was full. */
  lemma QuarantineFits(x: ExporterState, capacity: nat, letter: DeadLetter)
    requires |x.letters| <= capacity && capacity > 0 && !Holds(x.letters, Id(letter))
    ensures var room := if |x.letters| == capacity then Evicted(x) else x;
            !Holds(room.letters, Id(letter))
                && Quarantine(x, capacity, letter) == room.(letters := room.letters + [letter])
  {
    var all := x.letters + [letter];
    if |x.letters| == capacity {
      assert all[1..] == x.letters[1..] + [letter] && all[..1] == [x.letters[0]];
    } else {
      assert all[0..] == all && x.discarded + all[..0] == x.discarded;
    }
  }

  /** Only an idle exporter with nothing in progress, or with this very batch, takes it: with every mark as it was, or
      all of them clear. Each refusal has its reason. */
  lemma BeginExactly(x: ExporterState, leased: bool, batch: Batch)
    ensures var begun := Begin(x, leased, batch);
            && (begun == Err(AlreadyInProgress) <==> leased)
            && (begun == Err(IncompleteBatchFirst) <==>
                !leased && x.progress.Some? && x.progress.value.batch != batch)
            && (begun.Ok? ==>
                  && begun.value.(progress := None) == x.(progress := None)
                  && begun.value.progress.Some? && begun.value.progress.value.batch == batch
                  && |begun.value.progress.value.completed| == (if x.progress.Some? then |x.progress.value.completed|
                                                                else |batch|)
                  && forall i | 0 <= i < |begun.value.progress.value.completed| ::
                       begun.value.progress.value.completed[i] <==> x.progress.Some? && x.progress.value.completed[i])
  {
  }

  /** When an export succeeds: exactly when it may begin and every member of the batch has, or now gets, its verdict.
      Only then is the progress forgotten; a refusal, an error and a miscounted answer change no mark at all. */
  lemma ExportOutcome(x: ExporterState, capacity: nat, leased: bool, batch: Batch, reply: Reply)
    requires x.progress.Some? ==> WellFormed(x.progress.value)
    ensures var (y, done) := ExportOnce(x, capacity, leased, batch, reply);
            var begun := Begin(x, leased, batch);
            && (done ==> begun.Ok? && y.progress.None?)
            && (begun.Err? ==> y == x && !done)
            && (begun.Ok? ==>
                  var u := UnresolvedOf(begun.value.progress.value);
                  var heard := reply.Answered? && |reply.outcomes| == |u|;
                  && (done <==> u == [] || (heard && forall j | 0 <= j < |u| :: !reply.outcomes[j].RetryableFailure?))
                  && (!done ==> y.progress.Some? && y.progress.value.batch == batch)
                  && (!done && !heard ==> y == begun.value))
  {
    var begun := Begin(x, leased, batch);
    if begun.Ok? {
      var progress := begun.value.progress.value;
      var u := UnresolvedOf(progress);
      UnresolvedFirstExact(progress, |progress.batch|);
      if reply.Answered? && |reply.outcomes| == |u| {
        SettleFirstMarks(begun.value, capacity, u, reply.outcomes, |u|);
      }
    }
  }

  /** Answers change only completion marks and the dead-letter queue: a mark is set exactly by a definitive answer. */
  lemma {:induction false} SettleFirstMarks(x: ExporterState, capacity: nat, unresolved: Unresolved,
                                            outcomes: seq<Outcome>, n: nat)
    requires n <= |unresolved| && n <= |outcomes| && x.progress.Some? && WellFormed(x.progress.value)
    requires forall j | 0 <= j < |unresolved| :: unresolved[j].0 < |x.progress.value.batch|
    ensures var y := SettleFirst(x, capacity, unresolved, outcomes, n);
            && y.progress.Some? && WellFormed(y.progress.value) && y.progress.value.batch == x.progress.value.batch
            && y.drained == x.drained
            && forall i | 0 <= i < |x.progress.value.batch| ::
                 y.progress.value.completed[i] <==>
                 x.progress.value.completed[i]
                     || exists j | 0 <= j < n :: unresolved[j].0 == i && Definitive(outcomes[j])
  {
    if n > 0 {
      SettleFirstMarks(x, capacity, unresolved, outcomes, n - 1);
      var before := SettleFirst(x, capacity, unresolved, outcomes, n - 1);
      var after := SettleFirst(x, capacity, unresolved, outcomes, n);
      forall i | 0 <= i < |x.progress.value.batch|
        ensures after.progress.value.completed[i] <==>
                x.progress.value.completed[i]
                    || exists j | 0 <= j < n :: unresolved[j].0 == i && Definitive(outcomes[j])
      {
        assert (exists j | 0 <= j < n :: unresolved[j].0 == i && Definitive(outcomes[j])) <==>
               (exists j | 0 <= j < n - 1 :: unresolved[j].0 == i && Definitive(outcomes[j]))
               || (unresolved[n - 1].0 == i && Definitive(outcomes[n - 1]));
      }
    }
  }

  lemma {:induction false} SettleFirstAccounts(x: ExporterState, capacity: nat, unresolved: Unresolved,
                                               outcomes: seq<Outcome>, n: nat)
    requires n <= |unresolved| && n <= |outcomes|
    ensures var y := SettleFirst(x, capacity, unresolved, outcomes, n);
            && (forall id | AccountedFor(x, id) :: AccountedFor(y, id))
            && (forall j | 0 <= j < n && outcomes[j].PermanentRejection? :: AccountedFor(y, unresolved[j].1.identifier))
  {
    if n > 0 {
      SettleFirstAccounts(x, capacity, unresolved, outcomes, n - 1);
      var before := SettleFirst(x, capacity, unresolved, outcomes, n - 1);
      if outcomes[n - 1].PermanentRejection? {
        QuarantineAccounts(before, capacity,
                           DeadLetter(unresolved[n - 1].1, SynchronousProviderRejection(outcomes[n - 1].code)));
      }
    }
  }

  /** The unresolved list is the subsequence of the batch whose marks are not set. */
  lemma {:induction false} UnresolvedFirstExact(p: Progress, n: nat)
    requires WellFormed(p) && n <= |p.batch|
    ensures var u := UnresolvedFirst(p, n);
            && (forall j | 0 <= j < |u| :: u[j].0 < n && !p.completed[u[j].0] && u[j].1 == p.batch[u[j].0])
            && (forall i, j | 0 <= i < j < |u| :: u[i].0 < u[j].0)
            && (forall i | 0 <= i < n && !p.completed[i] :: (i, p.batch[i]) in u)
  {
    if n > 0 {
      UnresolvedFirstExact(p, n - 1);
    }
  }

  // ---------------------------------------------------------------- the exporter itself

  class MeterEventExporter {
    const deadLetterCapacity: nat
    var deadLetters: seq<DeadLetter>
    var deadLetterIdentifiers: set<nat>
    var droppedDeadLetters: u64
    var retryProgress: Option<Progress>
    var exporting: bool
    ghost var discarded: seq<DeadLetter>
    ghost var drained: seq<DeadLetter>

    ghost predicate Valid()
      reads this
    {
      && |deadLetters| <= deadLetterCapacity
      && (forall i, j | 0 <= i < j < |deadLetters| :: Id(deadLetters[i]) != Id(deadLetters[j]))
      && (forall id :: id in deadLetterIdentifiers <==> Holds(deadLetters, id))
      && droppedDeadLetters == Saturate(|discarded|)
      && (retryProgress.Some? ==> WellFormed(retryProgress.value))
    }

    ghost function Abstract(): ExporterState
      reads this
    {
      ExporterState(deadLetters, discarded, drained, retryProgress)
    }

    constructor (deadLetterCapacity: nat)
      ensures Valid() && Abstract() == FRESH && !exporting && this.deadLetterCapacity == deadLetterCapacity
    {
      this.deadLetterCapacity := deadLetterCapacity;
      deadLetters, deadLetterIdentifiers, droppedDeadLetters, retryProgress, exporting := [], {}, 0, None, false;
      discarded, drained := [], [];
    }

    method BeginExport(batch: Batch) returns (result: Result<(), ExportError>)
      requires Valid()
      modifies this
      ensures Valid()
      ensures match Begin(old(Abstract()), old(exporting), batch)
              case Ok(after) => result == Ok(()) && Abstract() == after && exporting
              case Err(error) => result == Err(error) && Abstract() == old(Abstract()) && exporting == old(exporting)
    {
      if exporting {
        return Err(AlreadyInProgress);
      }
      match retryProgress {
        case Some(progress) =>
          if progress.batch != batch {
            // The lease is dropped with the error.
            return Err(IncompleteBatchFirst);
          }
        case None =>
          retryProgress := Some(Progress(batch, seq(|batch|, _ => false)));
      }
      exporting := true;
      return Ok(());
    }

    method UnresolvedItems() returns (unresolved: Unresolved)
      requires Valid()
      ensures unresolved == if retryProgress.Some? then UnresolvedOf(retryProgress.value) else []
    {
      unresolved := [];
      if retryProgress.Some? {
        var progress := retryProgress.value;
        for i := 0 to |progress.batch|
          invariant unresolved == UnresolvedFirst(progress, i)
        {
          if !progress.completed[i] {
            unresolved := unresolved + [(i, progress.batch[i])];
          }
        }
      }
    }

    method MarkCompleted(index: nat)
      requires Valid()
      modifies this
      ensures Valid() && Abstract() == Completed(old(Abstract()), index) && exporting == old(exporting)
    {
      if retryProgress.Some? && index < |retryProgress.value.completed| {
        retryProgress := Some(retryProgress.value.(completed := retryProgress.value.completed[index := true]));
      }
    }

    method EvictOldest()
      requires Valid() && deadLetters != []
      modifies this
      ensures Valid() && Abstract() == Evicted(old(Abstract())) && exporting == old(exporting)
    {
      var evicted := deadLetters[0];
      deadLetterIdentifiers := deadLetterIdentifiers - {Id(evicted)};
      deadLetters := deadLetters[1..];
      droppedDeadLetters := Saturate(droppedDeadLetters + 1);
      discarded := discarded + [evicted];
    }

    /** The eviction loop: a full queue gives up its oldest letter. */
    method MakeRoom()
      requires Valid() && deadLetterCapacity > 0
      modifies this
      ensures Valid() && |deadLetters| < deadLetterCapacity && exporting == old(exporting)
      ensures Abstract() == if |old(deadLetters)| == deadLetterCapacity then Evicted(old(Abstract()))
              else old(Abstract())
    {
      while |deadLetters| >= deadLetterCapacity
        invariant Valid() && exporting == old(exporting)
        invariant Abstract() == old(Abstract())
                  || (old(|deadLetters|) == deadLetterCapacity && Abstract() == Evicted(old(Abstract())))
      {
        EvictOldest();
      }
    }

    method QuarantineLocked(letter: DeadLetter) returns (retained: bool)
      requires Valid()
      modifies this
      ensures Valid() && Abstract() == Quarantine(old(Abstract()), deadLetterCapacity, letter)
      ensures retained <==> !old(Holds(deadLetters, Id(letter))) && deadLetterCapacity > 0
      ensures exporting == old(exporting)
    {
      if Id(letter) in deadLetterIdentifiers {
        return false;
      }
      if deadLetterCapacity == 0 {
        droppedDeadLetters := Saturate(droppedDeadLetters + 1);
        discarded := discarded + [letter];
        return false;
      }
      QuarantineFits(Abstract(), deadLetterCapacity, letter);
      MakeRoom();
      Append(letter);
      return true;
    }

    method Append(letter: DeadLetter)
      requires Valid() && |deadLetters| < deadLetterCapacity && !Holds(deadLetters, Id(letter))
      modifies this
      ensures Valid() && exporting == old(exporting)
      ensures Abstract() == old(Abstract()).(letters := old(deadLetters) + [letter])
    {
      deadLetterIdentifiers := deadLetterIdentifiers + {Id(letter)};
      deadLetters := deadLetters + [letter];
    }

    method ApplyOutcomes(unresolved: Unresolved, outcomes: seq<Outcome>) returns (hasRetryable: bool)
      requires Valid() && |outcomes| == |unresolved|
      modifies this
      ensures Valid() && exporting == old(exporting)
      ensures Abstract() == SettleFirst(old(Abstract()), deadLetterCapacity, unresolved, outcomes, |outcomes|)
      ensures hasRetryable <==> exists j | 0 <= j < |outcomes| :: !Definitive(outcomes[j])
    {
      hasRetryable := false;
      for n := 0 to |unresolved|
        invariant Valid() && exporting == old(exporting)
        invariant Abstract() == SettleFirst(old(Abstract()), deadLetterCapacity, unresolved, outcomes, n)
        invariant hasRetryable <==> exists j | 0 <= j < n :: !Definitive(outcomes[j])
      {
        match outcomes[n]
        case Accepted =>
          MarkCompleted(unresolved[n].0);
        case RetryableFailure(_) =>
          hasRetryable := true;
        case PermanentRejection(code) =>
          var _ := QuarantineLocked(DeadLetter(unresolved[n].1, SynchronousProviderRejection(code)));
          MarkCompleted(unresolved[n].0);
      }
    }

    /** `export`, with the provider's reply as an argument. However it ends, the lease is given back. */
    method Export(batch: Batch, reply: Reply) returns (done: bool)
      requires Valid()
      modifies this
      ensures Valid()
      ensures (Abstract(), done) == ExportOnce(old(Abstract()), deadLetterCapacity, old(exporting), batch, reply)
      ensures exporting == old(exporting)
    {
      var begun := BeginExport(batch);
      if begun.Err? {
        return false;
      }
      var unresolved := UnresolvedItems();
      done := unresolved == [];
      if !done && reply.Answered? && |reply.outcomes| == |unresolved| {
        var hasRetryable := ApplyOutcomes(unresolved, reply.outcomes);
        done := !hasRetryable;
      }
      if done {
        CommitExport();
      }
      ReleaseLease();
    }

    method CommitExport()
      requires Valid()
      modifies this
      ensures Valid() && Abstract() == old(Abstract()).(progress := None) && exporting == old(exporting)
    {
      retryProgress := None;
    }

    /** Dropping the lease. */
    method ReleaseLease()
      requires Valid()
      modifies this
      ensures Valid() && Abstract() == old(Abstract()) && !exporting
    {
      exporting := false;
    }

    method TakeDeadLetters() returns (letters: seq<DeadLetter>)
      requires Valid()
      modifies this
      ensures Valid() && letters == old(deadLetters) && exporting == old(exporting)
      ensures Abstract() == old(Abstract()).(letters := [], drained := old(drained) + letters)
    {
      letters := deadLetters;
      drained := drained + letters;
      deadLetterIdentifiers, deadLetters := {}, [];
    }

    /** Forget the batch in progress, if no export is running, and name what it left unresolved. */
    method AbandonRetryProgress() returns (identifiers: seq<nat>)
      requires Valid()
      modifies this
      ensures Valid() && exporting == old(exporting)
      ensures old(exporting) ==> identifiers == [] && Abstract() == old(Abstract())
      ensures !old(exporting) ==> Abstract() == old(Abstract()).(progress := None)
      ensures old(retryProgress).None? ==> identifiers == []
      ensures !old(exporting) && old(retryProgress).Some? ==>
                var u := UnresolvedOf(old(retryProgress).value);
                |identifiers| == |u| && forall j | 0 <= j < |u| :: identifiers[j] == u[j].1.identifier
    {
      identifiers := [];
      if exporting {
        return;
      }
      var unresolved := UnresolvedItems();
      retryProgress := None;
      for j := 0 to |unresolved|
        invariant |identifiers| == j && forall i | 0 <= i < j :: identifiers[i] == unresolved[i].1.identifier
      {
        identifiers := identifiers + [unresolved[j].1.identifier];
      }
    }
  }
}
