/** Every interleaving of recording and flushing, with a history of what was recorded, named and committed. */
module BillingPipeline {
  import opened Prelude
  import opened B = UsageBuffer

  /** Where the one permitted flush stands. `Exporting` is the span in which the retry guard owns the batch;
      in `Leaving` the batch is already committed or restored and only the flush flag is still to be cleared. */
  datatype Phase = Idle | Acquired | Exporting(batch: Batch) | Leaving

  /** Where a recorded event is accounted for. */
  datatype Place = Waiting(key: Key) | Named(identifier: nat)

  datatype Entry = Entry(event: UsageEvent, place: Place)

  /** `entries`, `issued` and `committed` are history: every event recorded so far, every aggregate ever named, and
      the batches whose export succeeded. */
  datatype World = World(buffer: BufferState, phase: Phase, nextId: nat,
                         entries: seq<Entry>, issued: map<nat, Aggregate>, committed: seq<Batch>)

  datatype Config = Config(policy: RetryPolicy, limit: nat)

  datatype Step =
    | RecordUsage(event: UsageEvent)
    | Acquire
    | Refuse
    | Prepare(batch: Batch)
    | Commit
    | Restore
    | Release

  const INITIAL := World(EMPTY, Idle, 0, [], map[], [])

  ghost predicate Enabled(cfg: Config, w: World, step: Step) {
    match step
    case RecordUsage(_) => true
    case Acquire => w.phase.Idle?
    case Refuse => !w.phase.Idle?
    case Prepare(batch) =>
      && w.phase.Acquired?
      && (if TakesRetry(cfg.policy, w.buffer) then batch == w.buffer.retry[0]
          else Drained(w.buffer.pending, w.nextId, batch))
    case Commit => w.phase.Exporting?
    case Restore => w.phase.Exporting?
    case Release => w.phase.Leaving?
  }

  ghost function Apply(cfg: Config, w: World, step: Step): World
    requires Enabled(cfg, w, step)
  {
    match step
    case RecordUsage(e) =>
      var (buffer, outcome) := Record(w.buffer, cfg.limit, e);
      if outcome == Ok(Recorded) then w.(buffer := buffer, entries := w.entries + [Entry(e, Waiting(EventKey(e)))])
      else w.(buffer := buffer)
    case Acquire => w.(phase := Acquired)
    case Refuse => w
    case Prepare(batch) =>
      // An empty batch returns at once, before a retry guard exists.
      var phase := if batch == [] then Leaving else Exporting(batch);
      if TakesRetry(cfg.policy, w.buffer) then
        w.(buffer := w.buffer.(retry := w.buffer.retry[1..], servePendingNext := true), phase := phase)
      else
        w.(buffer := w.buffer.(pending := map[], servePendingNext := false), phase := phase,
           nextId := w.nextId + |batch|, entries := NameAll(w.entries, batch), issued := w.issued + Naming(batch))
    case Commit => w.(committed := w.committed + [w.phase.batch], phase := Leaving)
    case Restore => w.(buffer := w.buffer.(retry := w.buffer.retry + [w.phase.batch]), phase := Leaving)
    case Release => w.(phase := Idle)
  }

  /** The world after `steps`, or None when some step could not happen. */
  ghost function Run(cfg: Config, start: World, steps: seq<Step>): Option<World> {
    if steps == [] then Some(start)
    else
      var before := Run(cfg, start, steps[..|steps| - 1]);
      var step := steps[|steps| - 1];
      if before.Some? && Enabled(cfg, before.value, step) then Some(Apply(cfg, before.value, step)) else None
  }

  function IdOf(batch: Batch, k: Key): nat
    requires HasKey(batch, k)
  {
    if AggregateKey(batch[0]) == k then batch[0].identifier else IdOf(batch[1..], k)
  }

  function Rename(p: Place, batch: Batch): Place {
    if p.Waiting? && HasKey(batch, p.key) then Named(IdOf(batch, p.key)) else p
  }

  function NameAll(entries: seq<Entry>, batch: Batch): seq<Entry> {
    seq(|entries|, i requires 0 <= i < |entries| => Entry(entries[i].event, Rename(entries[i].place, batch)))
  }

  function Naming(batch: Batch): map<nat, Aggregate>
  {
    if batch == [] then map[] else Naming(batch[..|batch| - 1])[batch[|batch| - 1].identifier := batch[|batch| - 1]]
  }

  // ---------------------------------------------------------------- what the books say

  function SumAt(entries: seq<Entry>, p: Place): nat {
    if entries == [] then 0
    else
      var last := entries[|entries| - 1];
      SumAt(entries[..|entries| - 1], p) + if last.place == p then last.event.units else 0
  }

  function OldestAt(entries: seq<Entry>, p: Place): Option<u64> {
    if entries == [] then None
    else
      var last := entries[|entries| - 1];
      var oldest := OldestAt(entries[..|entries| - 1], p);
      if last.place != p then oldest
      else Some(if oldest.Some? then Min(oldest.value, last.event.timestamp) else last.event.timestamp)
  }

  /** Every event is accounted for in one place, and each place holds the sum and the minimum of its events. */
  ghost predicate Books(w: World) {
    && (forall i | 0 <= i < |w.entries| :: EntryPlaced(w, w.entries[i]))
    && (forall k | k in w.buffer.pending ::
          && OldestAt(w.entries, Waiting(k)) == Some(w.buffer.pending[k].oldest)
          && SumAt(w.entries, Waiting(k)) == w.buffer.pending[k].units)
    && (forall id | id in w.issued :: AggregateOf(w.entries, w.issued[id], id) && id < w.nextId)
  }

  ghost predicate EntryPlaced(w: World, entry: Entry) {
    match entry.place
    case Waiting(k) => k == EventKey(entry.event) && k in w.buffer.pending
    case Named(id) => id in w.issued && AggregateKey(w.issued[id]) == EventKey(entry.event)
  }

  ghost predicate AggregateOf(entries: seq<Entry>, a: Aggregate, id: nat) {
    && a.identifier == id
    && SumAt(entries, Named(id)) == a.units
    && OldestAt(entries, Named(id)) == Some(a.timestamp)
  }

  lemma {:induction false} MovedPlace(before: seq<Entry>, p: Place, after: seq<Entry>, q: Place)
    requires |before| == |after|
    requires forall i | 0 <= i < |before| :: before[i].event == after[i].event
    requires forall i | 0 <= i < |before| :: before[i].place == p <==> after[i].place == q
    ensures SumAt(before, p) == SumAt(after, q) && OldestAt(before, p) == OldestAt(after, q)
  {
    if before != [] {
      MovedPlace(before[..|before| - 1], p, after[..|after| - 1], q);
    }
  }

  lemma {:induction false} EmptyPlace(entries: seq<Entry>, p: Place)
    ensures OldestAt(entries, p).None? <==> forall i | 0 <= i < |entries| :: entries[i].place != p
    ensures OldestAt(entries, p).None? ==> SumAt(entries, p) == 0
  {
    if entries != [] {
      EmptyPlace(entries[..|entries| - 1], p);
    }
  }

  lemma AppendEntry(entries: seq<Entry>, x: Entry, p: Place)
    ensures SumAt(entries + [x], p) == SumAt(entries, p) + if x.place == p then x.event.units else 0
    ensures x.place != p ==> OldestAt(entries + [x], p) == OldestAt(entries, p)
    ensures x.place == p ==>
              OldestAt(entries + [x], p) ==
              Some(if OldestAt(entries, p).Some? then Min(OldestAt(entries, p).value, x.event.timestamp)
                   else x.event.timestamp)
  {
    assert (entries + [x])[..|entries|] == entries;
  }

  lemma {:induction false} IdOfKey(batch: Batch, a: Aggregate, k: Key)
    requires SortedByKey(batch) && DistinctIds(batch) && a in batch && HasKey(batch, k)
    ensures IdOf(batch, k) == a.identifier <==> AggregateKey(a) == k
  {
    var i :| 0 <= i < |batch| && batch[i] == a;
    if AggregateKey(batch[0]) != k {
      assert HasKey(batch[1..], k);
      if i > 0 {
        IdOfKey(batch[1..], a, k);
      } else {
        var b :| b in batch[1..] && AggregateKey(b) == k;
        IdOfKey(batch[1..], b, k);
      }
    } else if i > 0 {
      KeyLessTotal(AggregateKey(batch[0]), AggregateKey(a));
    }
  }

  lemma {:induction false} NamingNames(batch: Batch)
    requires DistinctIds(batch)
    ensures forall a :: a in batch <==> a.identifier in Naming(batch) && Naming(batch)[a.identifier] == a
    ensures forall id | id in Naming(batch) :: Naming(batch)[id] in batch && Naming(batch)[id].identifier == id
  {
    if batch != [] {
      NamingNames(batch[..|batch| - 1]);
    }
  }

  lemma BooksInit()
    ensures Books(INITIAL)
  {
  }

  lemma BooksStep(cfg: Config, w: World, step: Step)
    requires Books(w) && Enabled(cfg, w, step)
    ensures Books(Apply(cfg, w, step))
  {
    match step
    case RecordUsage(e) =>
      if Record(w.buffer, cfg.limit, e).1 == Ok(Recorded) {
        BooksRecorded(cfg, w, e);
      }
    case Prepare(batch) =>
      if !TakesRetry(cfg.policy, w.buffer) {
        BooksDrained(w, Apply(cfg, w, step), batch);
      }
    case _ =>
  }

  lemma BooksRecorded(cfg: Config, w: World, e: UsageEvent)
    requires Books(w) && Record(w.buffer, cfg.limit, e).1 == Ok(Recorded)
    ensures Books(Apply(cfg, w, RecordUsage(e)))
  {
    var w' := Apply(cfg, w, RecordUsage(e));
    var x := Entry(e, Waiting(EventKey(e)));
    forall i | 0 <= i < |w'.entries| ensures EntryPlaced(w', w'.entries[i]) {
      if i < |w.entries| {
        assert EntryPlaced(w, w.entries[i]);
      }
    }
    forall k | k in w'.buffer.pending
      ensures OldestAt(w'.entries, Waiting(k)) == Some(w'.buffer.pending[k].oldest)
      ensures SumAt(w'.entries, Waiting(k)) == w'.buffer.pending[k].units
    {
      AppendEntry(w.entries, x, Waiting(k));
      EmptyPlace(w.entries, Waiting(k));
    }
    forall id | id in w'.issued ensures AggregateOf(w'.entries, w'.issued[id], id) {
      assert AggregateOf(w.entries, w.issued[id], id);
      AppendEntry(w.entries, x, Named(id));
    }
  }

  /** A drain sends a waiting event to the one aggregate with its key, and no other event anywhere. */
  lemma DrainedEntry(w: World, batch: Batch, entry: Entry)
    requires Drained(w.buffer.pending, w.nextId, batch) && EntryPlaced(w, entry)
    ensures entry.place.Named? ==> Rename(entry.place, batch) == entry.place
    ensures entry.place.Waiting? ==>
              exists a | a in batch :: AggregateKey(a) == EventKey(entry.event)
                  && Rename(entry.place, batch) == Named(a.identifier)
    ensures forall a | a in batch && entry.place.Waiting? ::
              Rename(entry.place, batch) == Named(a.identifier) <==> entry.place == Waiting(AggregateKey(a))
  {
    if entry.place.Waiting? {
      forall a | a in batch
        ensures Rename(entry.place, batch) == Named(a.identifier) <==> AggregateKey(a) == entry.place.key
      {
        IdOfKey(batch, a, entry.place.key);
      }
      assert HasKey(batch, entry.place.key);
      var a :| a in batch && AggregateKey(a) == entry.place.key;
      assert Rename(entry.place, batch) == Named(a.identifier);
    }
  }

  lemma DrainedAggregate(w: World, batch: Batch, a: Aggregate)
    requires Books(w) && Drained(w.buffer.pending, w.nextId, batch) && a in batch
    ensures AggregateOf(NameAll(w.entries, batch), a, a.identifier)
  {
    var after := NameAll(w.entries, batch);
    forall i | 0 <= i < |w.entries|
      ensures w.entries[i].place == Waiting(AggregateKey(a)) <==> after[i].place == Named(a.identifier)
    {
      assert EntryPlaced(w, w.entries[i]);
      DrainedEntry(w, batch, w.entries[i]);
    }
    MovedPlace(w.entries, Waiting(AggregateKey(a)), after, Named(a.identifier));
    assert Describes(w.buffer.pending, a);
  }

  lemma EarlierAggregate(w: World, batch: Batch, id: nat)
    requires Books(w) && Drained(w.buffer.pending, w.nextId, batch) && id in w.issued
    ensures AggregateOf(NameAll(w.entries, batch), w.issued[id], id)
  {
    var after := NameAll(w.entries, batch);
    assert AggregateOf(w.entries, w.issued[id], id) && id < w.nextId;
    forall i | 0 <= i < |w.entries|
      ensures w.entries[i].place == Named(id) <==> after[i].place == Named(id)
    {
      assert EntryPlaced(w, w.entries[i]);
      DrainedEntry(w, batch, w.entries[i]);
    }
    MovedPlace(w.entries, Named(id), after, Named(id));
  }

  lemma BooksDrained(w: World, w': World, batch: Batch)
    requires Books(w) && Drained(w.buffer.pending, w.nextId, batch)
    requires w'.buffer.pending == map[] && w'.entries == NameAll(w.entries, batch)
    requires w'.issued == w.issued + Naming(batch) && w'.nextId == w.nextId + |batch|
    ensures Books(w')
  {
    NamingNames(batch);
    forall i | 0 <= i < |w'.entries| ensures EntryPlaced(w', w'.entries[i]) {
      assert EntryPlaced(w, w.entries[i]);
      DrainedEntry(w, batch, w.entries[i]);
    }
    forall id | id in w'.issued ensures AggregateOf(w'.entries, w'.issued[id], id) && id < w'.nextId {
      if id in Naming(batch) {
        DrainedAggregate(w, batch, Naming(batch)[id]);
      } else {
        EarlierAggregate(w, batch, id);
      }
    }
  }

  // ---------------------------------------------------------------- each aggregate is held once

  function Bag(batches: seq<Batch>): multiset<Aggregate> {
    if batches == [] then multiset{}
    else Bag(batches[..|batches| - 1]) + multiset(batches[|batches| - 1])
  }

  function Held(phase: Phase): Batch {
    if phase.Exporting? then phase.batch else []
  }

  function Circulating(w: World): multiset<Aggregate> {
    Bag(w.buffer.retry) + multiset(Held(w.phase)) + Bag(w.committed)
  }

  /** Every aggregate ever named is queued for retry, being exported, or committed: in one of them, once, unchanged. */
  ghost predicate EachOnce(w: World) {
    forall a: Aggregate :: Circulating(w)[a] == if a.identifier in w.issued && w.issued[a.identifier] == a then 1 else 0
  }

  lemma {:induction false} BagFront(batches: seq<Batch>)
    requires batches != []
    ensures Bag(batches) == multiset(batches[0]) + Bag(batches[1..])
  {
    if |batches| > 1 {
      BagFront(batches[..|batches| - 1]);
      assert batches[1..][..|batches| - 2] == batches[..|batches| - 1][1..];
    }
  }

  lemma BagAppend(batches: seq<Batch>, b: Batch)
    ensures Bag(batches + [b]) == Bag(batches) + multiset(b)
  {
    assert (batches + [b])[..|batches|] == batches;
  }

  lemma {:induction false} CountDistinct(batch: Batch, a: Aggregate)
    requires DistinctIds(batch)
    ensures multiset(batch)[a] == if a in batch then 1 else 0
  {
    if batch != [] {
      var n := |batch| - 1;
      CountDistinct(batch[..n], a);
      assert batch == batch[..n] + [batch[n]];
    }
  }

  lemma EachOnceDrained(cfg: Config, w: World, batch: Batch)
    requires Books(w) && EachOnce(w) && Enabled(cfg, w, Prepare(batch)) && !TakesRetry(cfg.policy, w.buffer)
    ensures EachOnce(Apply(cfg, w, Prepare(batch)))
  {
    var w' := Apply(cfg, w, Prepare(batch));
    NamingNames(batch);
    assert Circulating(w') == Circulating(w) + multiset(batch);
    forall a: Aggregate
      ensures Circulating(w')[a] == if a.identifier in w'.issued && w'.issued[a.identifier] == a then 1 else 0
    {
      CountDistinct(batch, a);
      assert Circulating(w)[a] == if a.identifier in w.issued && w.issued[a.identifier] == a then 1 else 0;
      assert a.identifier in w.issued ==> AggregateOf(w.entries, w.issued[a.identifier], a.identifier);
    }
  }

  lemma RetryMoves(w: World, w': World)
    requires w.buffer.retry != [] && Held(w.phase) == [] && w'.buffer.retry == w.buffer.retry[1..]
    requires Held(w'.phase) == w.buffer.retry[0] && w'.committed == w.committed
    ensures Circulating(w') == Circulating(w)
  {
    BagFront(w.buffer.retry);
  }

  lemma CommitMoves(w: World, w': World)
    requires w'.committed == w.committed + [Held(w.phase)] && Held(w'.phase) == [] && w'.buffer.retry == w.buffer.retry
    ensures Circulating(w') == Circulating(w)
  {
    BagAppend(w.committed, Held(w.phase));
  }

  lemma RestoreMoves(w: World, w': World)
    requires w'.buffer.retry == w.buffer.retry + [Held(w.phase)] && Held(w'.phase) == [] && w'.committed == w.committed
    ensures Circulating(w') == Circulating(w)
  {
    BagAppend(w.buffer.retry, Held(w.phase));
  }

  /** Only a drain brings new aggregates into circulation. */
  lemma CirculationKept(cfg: Config, w: World, step: Step)
    requires Enabled(cfg, w, step)
    requires !(step.Prepare? && !TakesRetry(cfg.policy, w.buffer))
    ensures Circulating(Apply(cfg, w, step)) == Circulating(w) && Apply(cfg, w, step).issued == w.issued
  {
    var w' := Apply(cfg, w, step);
    match step
    case Prepare(batch) => RetryMoves(w, w');
    case Commit => CommitMoves(w, w');
    case Restore => RestoreMoves(w, w');
    case _ =>
      assert w'.buffer.retry == w.buffer.retry && Held(w'.phase) == Held(w.phase) && w'.committed == w.committed;
  }

  lemma EachOnceStep(cfg: Config, w: World, step: Step)
    requires Books(w) && EachOnce(w) && Enabled(cfg, w, step)
    ensures EachOnce(Apply(cfg, w, step))
  {
    if step.Prepare? && !TakesRetry(cfg.policy, w.buffer) {
      EachOnceDrained(cfg, w, step.batch);
    } else {
      CirculationKept(cfg, w, step);
      SameCirculation(w, Apply(cfg, w, step));
    }
  }

  lemma SameCirculation(w: World, w': World)
    requires EachOnce(w) && Circulating(w') == Circulating(w) && w'.issued == w.issued
    ensures EachOnce(w')
  {
  }

  // ---------------------------------------------------------------- units are conserved

  function RecordedUnits(entries: seq<Entry>, k: Key): nat {
    if entries == [] then 0
    else
      var e := entries[|entries| - 1].event;
      RecordedUnits(entries[..|entries| - 1], k) + if EventKey(e) == k then e.units else 0
  }

  function UnitsIn(batch: Batch, k: Key): nat {
    if batch == [] then 0
    else
      var a := batch[|batch| - 1];
      UnitsIn(batch[..|batch| - 1], k) + if AggregateKey(a) == k then a.units else 0
  }

  function UnitsInAll(batches: seq<Batch>, k: Key): nat {
    if batches == [] then 0
    else UnitsInAll(batches[..|batches| - 1], k) + UnitsIn(batches[|batches| - 1], k)
  }

  /** Units recorded = units pending + queued for retry + being exported + committed. */
  predicate LedgerAt(w: World, k: Key) {
    RecordedUnits(w.entries, k)
    == PendingUnits(w.buffer, k) + UnitsInAll(w.buffer.retry, k) + UnitsIn(Held(w.phase), k)
        + UnitsInAll(w.committed, k)
  }

  lemma {:induction false} UnitsFront(batches: seq<Batch>, k: Key)
    requires batches != []
    ensures UnitsInAll(batches, k) == UnitsIn(batches[0], k) + UnitsInAll(batches[1..], k)
  {
    if |batches| > 1 {
      UnitsFront(batches[..|batches| - 1], k);
      assert batches[1..][..|batches| - 2] == batches[..|batches| - 1][1..];
    }
  }

  lemma UnitsAppend(batches: seq<Batch>, b: Batch, k: Key)
    ensures UnitsInAll(batches + [b], k) == UnitsInAll(batches, k) + UnitsIn(b, k)
  {
    assert (batches + [b])[..|batches|] == batches;
  }

  lemma {:induction false} UnitsOfKey(batch: Batch, k: Key)
    requires SortedByKey(batch)
    ensures !HasKey(batch, k) ==> UnitsIn(batch, k) == 0
    ensures forall a | a in batch && AggregateKey(a) == k :: UnitsIn(batch, k) == a.units
  {
    if batch != [] {
      var n := |batch| - 1;
      UnitsOfKey(batch[..n], k);
      assert batch == batch[..n] + [batch[n]];
      if HasKey(batch[..n], k) {
        var a :| a in batch[..n] && AggregateKey(a) == k;
        KeyLessTotal(AggregateKey(a), AggregateKey(batch[n]));
      }
    }
  }

  lemma {:induction false} SameEvents(a: seq<Entry>, b: seq<Entry>, k: Key)
    requires |a| == |b| && forall i | 0 <= i < |a| :: a[i].event == b[i].event
    ensures RecordedUnits(a, k) == RecordedUnits(b, k)
    ensures KeyedHistory(a) == KeyedHistory(b)
  {
    if a != [] {
      SameEvents(a[..|a| - 1], b[..|b| - 1], k);
    }
  }

  lemma LedgerRecord(cfg: Config, w: World, e: UsageEvent, k: Key)
    requires LedgerAt(w, k)
    ensures LedgerAt(Apply(cfg, w, RecordUsage(e)), k)
  {
    var w' := Apply(cfg, w, RecordUsage(e));
    if w'.entries != w.entries {
      assert w'.entries[..|w.entries|] == w.entries;
      assert PendingUnits(w'.buffer, k) == PendingUnits(w.buffer, k) + if EventKey(e) == k then e.units else 0;
    }
  }

  lemma LedgerPrepare(cfg: Config, w: World, batch: Batch, k: Key)
    requires LedgerAt(w, k) && Enabled(cfg, w, Prepare(batch))
    ensures LedgerAt(Apply(cfg, w, Prepare(batch)), k)
  {
    var w' := Apply(cfg, w, Prepare(batch));
    assert UnitsIn(Held(w'.phase), k) == UnitsIn(batch, k);
    if TakesRetry(cfg.policy, w.buffer) {
      UnitsFront(w.buffer.retry, k);
    } else {
      SameEvents(w.entries, w'.entries, k);
      DrainedUnits(w.buffer, w.nextId, batch, k);
    }
  }

  lemma DrainedUnits(buffer: BufferState, firstId: nat, batch: Batch, k: Key)
    requires Drained(buffer.pending, firstId, batch)
    ensures UnitsIn(batch, k) == PendingUnits(buffer, k)
  {
    UnitsOfKey(batch, k);
    if HasKey(batch, k) {
      var a :| a in batch && AggregateKey(a) == k;
      assert Describes(buffer.pending, a);
    }
  }

  lemma LedgerCommit(cfg: Config, w: World, k: Key)
    requires LedgerAt(w, k) && w.phase.Exporting?
    ensures LedgerAt(Apply(cfg, w, Commit), k)
  {
    UnitsAppend(w.committed, w.phase.batch, k);
  }

  lemma LedgerRestore(cfg: Config, w: World, k: Key)
    requires LedgerAt(w, k) && w.phase.Exporting?
    ensures LedgerAt(Apply(cfg, w, Restore), k)
  {
    UnitsAppend(w.buffer.retry, w.phase.batch, k);
  }

  lemma LedgerStep(cfg: Config, w: World, step: Step, k: Key)
    requires LedgerAt(w, k) && Enabled(cfg, w, step)
    ensures LedgerAt(Apply(cfg, w, step), k)
  {
    match step
    case RecordUsage(e) => LedgerRecord(cfg, w, e, k);
    case Prepare(batch) => LedgerPrepare(cfg, w, batch, k);
    case Commit => LedgerCommit(cfg, w, k);
    case Restore => LedgerRestore(cfg, w, k);
    case _ =>
  }

  // ---------------------------------------------------------------- the idempotency window

  /** The keys of the keyed events recorded so far, oldest first. */
  function KeyedHistory(entries: seq<Entry>): seq<ScopedKey> {
    if entries == [] then []
    else
      var e := entries[|entries| - 1].event;
      KeyedHistory(entries[..|entries| - 1]) + if Keyed(e) then [Scoped(e)] else []
  }

  /** The memory is the last `limit` keys, and a key came back only after `limit` other keyed events. */
  predicate Remembered(cfg: Config, w: World) {
    var history := KeyedHistory(w.entries);
    && w.buffer.window == LastOf(history, cfg.limit)
    && Spaced(history, cfg.limit)
  }

  predicate Spaced(history: seq<ScopedKey>, limit: nat) {
    forall i, j | 0 <= i < j < |history| && history[i] == history[j] :: j - i - 1 >= limit
  }

  lemma SpacedAppend(history: seq<ScopedKey>, limit: nat, x: ScopedKey)
    requires Spaced(history, limit) && x !in LastOf(history, limit)
    ensures Spaced(history + [x], limit)
  {
    forall i | 0 <= i < |history| && history[i] == x ensures |history| - i - 1 >= limit {
      InLastOf(history, limit, i);
    }
  }

  lemma InLastOf<T>(s: seq<T>, n: nat, i: nat)
    requires i < |s|
    ensures |s| - i <= n ==> s[i] in LastOf(s, n)
  {
    if |s| - i <= n {
      assert s[i] == LastOf(s, n)[i - (|s| - |LastOf(s, n)|)];
    }
  }

  lemma LastOfAppend<T>(s: seq<T>, n: nat, x: T)
    ensures LastOf(LastOf(s, n) + [x], n) == LastOf(s + [x], n)
  {
  }

  lemma RememberedStep(cfg: Config, w: World, step: Step)
    requires Remembered(cfg, w) && Enabled(cfg, w, step)
    ensures Remembered(cfg, Apply(cfg, w, step))
  {
    match step
    case RecordUsage(e) =>
      if Record(w.buffer, cfg.limit, e).1 == Ok(Recorded) {
        RememberedRecord(cfg, w, e);
      }
    case Prepare(batch) =>
      if !TakesRetry(cfg.policy, w.buffer) {
        SameEvents(w.entries, Apply(cfg, w, step).entries, Key("", ""));
      }
    case _ =>
  }

  lemma RememberedRecord(cfg: Config, w: World, e: UsageEvent)
    requires Remembered(cfg, w) && Record(w.buffer, cfg.limit, e).1 == Ok(Recorded)
    ensures Remembered(cfg, Apply(cfg, w, RecordUsage(e)))
  {
    var w' := Apply(cfg, w, RecordUsage(e));
    var history := KeyedHistory(w.entries);
    assert w'.entries[..|w.entries|] == w.entries;
    if Keyed(e) {
      LastOfAppend(history, cfg.limit, Scoped(e));
      SpacedAppend(history, cfg.limit, Scoped(e));
    }
  }

  /** The event's own tenant recorded this key among the last `limit` keyed events. */
  predicate SeenLately(history: seq<ScopedKey>, limit: nat, e: UsageEvent) {
    e.idempotencyKey.Some?
    && exists i | 0 <= i < |history| ::
         |history| - i <= limit && history[i] == ScopedKey(e.tenant, e.idempotencyKey.value)
  }

  lemma SeenIsRemembered(s: BufferState, history: seq<ScopedKey>, limit: nat, e: UsageEvent)
    requires s.window == LastOf(history, limit)
    ensures Keyed(e) && Scoped(e) in s.window <==> SeenLately(history, limit, e)
  {
    if SeenLately(history, limit, e) {
      var i :| 0 <= i < |history| && |history| - i <= limit
          && history[i] == ScopedKey(e.tenant, e.idempotencyKey.value);
      InLastOf(history, limit, i);
    }
    if Keyed(e) && Scoped(e) in s.window {
      var j :| 0 <= j < |s.window| && s.window[j] == Scoped(e);
      var i := |history| - |s.window| + j;
      assert history[i] == s.window[j] && |history| - i <= limit;
    }
  }

  // ---------------------------------------------------------------- whole runs

  ghost predicate Sound(cfg: Config, w: World) {
    && Books(w)
    && EachOnce(w)
    && (forall k: Key :: LedgerAt(w, k))
    && Remembered(cfg, w)
  }

  lemma SoundStep(cfg: Config, w: World, step: Step)
    requires Sound(cfg, w) && Enabled(cfg, w, step)
    ensures Sound(cfg, Apply(cfg, w, step))
  {
    BooksStep(cfg, w, step);
    EachOnceStep(cfg, w, step);
    forall k: Key ensures LedgerAt(Apply(cfg, w, step), k) {
      LedgerStep(cfg, w, step, k);
    }
    RememberedStep(cfg, w, step);
  }

  /** Every reachable world keeps the books, for either retry policy and any exporter. */
  lemma {:induction false} SoundRun(cfg: Config, steps: seq<Step>)
    requires Run(cfg, INITIAL, steps).Some?
    ensures Sound(cfg, Run(cfg, INITIAL, steps).value)
  {
    if steps == [] {
      BooksInit();
    } else {
      var n := |steps| - 1;
      SoundRun(cfg, steps[..n]);
      SoundStep(cfg, Run(cfg, INITIAL, steps[..n]).value, steps[n]);
    }
  }

  /** In any reachable state, what becomes of an event: nothing with no units; a duplicate if its own tenant used its
      key among the last `limit` keyed events; an overflow if the sum does not fit; and otherwise it is recorded. */
  lemma OutcomeExactly(cfg: Config, steps: seq<Step>, e: UsageEvent)
    requires Run(cfg, INITIAL, steps).Some?
    ensures var w := Run(cfg, INITIAL, steps).value;
            var outcome := Record(w.buffer, cfg.limit, e).1;
            var again := SeenLately(KeyedHistory(w.entries), cfg.limit, e);
            var waiting := PendingUnits(w.buffer, Key(e.customer, e.meter));
            && (outcome == Ok(ZeroUnits) <==> e.units == 0)
            && (outcome == Ok(Duplicate) <==> e.units > 0 && again)
            && (outcome == Err(UnitsOverflow) <==> e.units > 0 && !again && waiting + e.units > U64_MAX)
            && (outcome == Ok(Recorded) <==> e.units > 0 && !again && waiting + e.units <= U64_MAX)
  {
    SoundRun(cfg, steps);
    var w := Run(cfg, INITIAL, steps).value;
    SeenIsRemembered(w.buffer, KeyedHistory(w.entries), cfg.limit, e);
  }

  lemma {:induction false} OldestIsMinimum(entries: seq<Entry>, p: Place)
    requires OldestAt(entries, p).Some?
    ensures forall i | 0 <= i < |entries| && entries[i].place == p ::
              OldestAt(entries, p).value <= entries[i].event.timestamp
    ensures exists i | 0 <= i < |entries| ::
              entries[i].place == p && entries[i].event.timestamp == OldestAt(entries, p).value
  {
    var init, last := entries[..|entries| - 1], entries[|entries| - 1];
    if OldestAt(init, p).Some? {
      OldestIsMinimum(init, p);
      var i :| 0 <= i < |init| && init[i].place == p && init[i].event.timestamp == OldestAt(init, p).value;
      assert entries[i] == init[i];
    } else {
      EmptyPlace(init, p);
    }
  }

  /** An aggregate's timestamp is that of its earliest event, whatever the order in which the events came. */
  lemma EarliestTimestamp(cfg: Config, steps: seq<Step>, id: nat)
    requires Run(cfg, INITIAL, steps).Some? && id in Run(cfg, INITIAL, steps).value.issued
    ensures var w := Run(cfg, INITIAL, steps).value;
            var a := w.issued[id];
            && (forall i | 0 <= i < |w.entries| && w.entries[i].place == Named(id) ::
                  && a.timestamp <= w.entries[i].event.timestamp
                  && w.entries[i].event.customer == a.customer && w.entries[i].event.meter == a.meter)
            && exists i | 0 <= i < |w.entries| ::
                 w.entries[i].place == Named(id) && w.entries[i].event.timestamp == a.timestamp
  {
    SoundRun(cfg, steps);
    var w := Run(cfg, INITIAL, steps).value;
    assert AggregateOf(w.entries, w.issued[id], id);
    OldestIsMinimum(w.entries, Named(id));
    forall i | 0 <= i < |w.entries| && w.entries[i].place == Named(id)
      ensures w.entries[i].event.customer == w.issued[id].customer && w.entries[i].event.meter == w.issued[id].meter
    {
      assert EntryPlaced(w, w.entries[i]);
    }
  }

  /** Conservation, a customer and meter at a time. */
  lemma UnitsAreConserved(cfg: Config, steps: seq<Step>, k: Key)
    requires Run(cfg, INITIAL, steps).Some?
    ensures var w := Run(cfg, INITIAL, steps).value;
            RecordedUnits(w.entries, k)
            == PendingUnits(w.buffer, k) + UnitsInAll(w.buffer.retry, k) + UnitsIn(Held(w.phase), k)
                + UnitsInAll(w.committed, k)
  {
    SoundRun(cfg, steps);
    assert LedgerAt(Run(cfg, INITIAL, steps).value, k);
  }

  lemma IssuedStays(cfg: Config, w: World, step: Step, id: nat)
    requires Books(w) && Enabled(cfg, w, step) && id in w.issued
    ensures id in Apply(cfg, w, step).issued && Apply(cfg, w, step).issued[id] == w.issued[id]
  {
    if step.Prepare? && !TakesRetry(cfg.policy, w.buffer) {
      NamingNames(step.batch);
      assert AggregateOf(w.entries, w.issued[id], id) && id < w.nextId;
    }
  }

  /** An identifier names the same aggregate at every later point of any run. */
  lemma {:induction false} IdentifiersAreForever(cfg: Config, past: seq<Step>, future: seq<Step>, id: nat)
    requires Run(cfg, INITIAL, past).Some? && Run(cfg, Run(cfg, INITIAL, past).value, future).Some?
    requires id in Run(cfg, INITIAL, past).value.issued
    ensures var w := Run(cfg, INITIAL, past).value;
            var later := Run(cfg, w, future).value;
            Sound(cfg, later) && id in later.issued && later.issued[id] == w.issued[id]
  {
    SoundRun(cfg, past);
    if future != [] {
      var w := Run(cfg, INITIAL, past).value;
      var n := |future| - 1;
      IdentifiersAreForever(cfg, past, future[..n], id);
      var before := Run(cfg, w, future[..n]).value;
      SoundStep(cfg, before, future[n]);
      IssuedStays(cfg, before, future[n], id);
    }
  }

  // ---------------------------------------------------------------- nothing starves when retries interleave

  /** How many flushes of `steps` chose a batch. */
  function Flushes(steps: seq<Step>): nat {
    if steps == [] then 0 else (if steps[0].Prepare? then 1 else 0) + Flushes(steps[1..])
  }

  ghost predicate Runs(cfg: Config, w: World, steps: seq<Step>)
    decreases |steps|
  {
    steps == [] || (Enabled(cfg, w, steps[0]) && Runs(cfg, Apply(cfg, w, steps[0]), steps[1..]))
  }

  predicate Offers(steps: seq<Step>, batch: Batch) {
    exists step | step in steps :: step.Prepare? && step.batch == batch
  }

  /** A batch with an aggregate for `k` that was named no earlier than `firstId` and covers what was pending. */
  predicate Covers(batch: Batch, k: Key, firstId: nat, pending: Pending) {
    exists a | a in batch ::
      AggregateKey(a) == k && a.identifier >= firstId && a.units >= pending.units && a.timestamp <= pending.oldest
  }

  predicate OffersFresh(steps: seq<Step>, k: Key, firstId: nat, pending: Pending) {
    exists step | step in steps :: step.Prepare? && Covers(step.batch, k, firstId, pending)
  }

  /** Whatever is recorded, fails or succeeds meanwhile, the k-th queued batch is offered within 2(k+1) flushes. */
  lemma {:induction false} RetryIsOffered(cfg: Config, w: World, steps: seq<Step>, k: nat)
    requires cfg.policy == Interleave && Runs(cfg, w, steps)
    requires k < |w.buffer.retry|
    requires Flushes(steps) >= 2 * k + if w.buffer.servePendingNext then 2 else 1
    ensures Offers(steps, w.buffer.retry[k])
    decreases |steps|
  {
    var step := steps[0];
    assert step in steps;
    if step.Prepare? && TakesRetry(cfg.policy, w.buffer) && k == 0 {
    } else {
      var w' := Apply(cfg, w, step);
      var k' := if step.Prepare? && TakesRetry(cfg.policy, w.buffer) then k - 1 else k;
      assert w'.buffer.retry[k'] == w.buffer.retry[k];
      RetryIsOffered(cfg, w', steps[1..], k');
      var later :| later in steps[1..] && later.Prepare? && later.batch == w.buffer.retry[k];
      assert later in steps;
    }
  }

  /** Usage waiting under a key only grows until it is drained. */
  lemma PendingGrows(cfg: Config, w: World, step: Step, k: Key)
    requires Enabled(cfg, w, step) && k in w.buffer.pending && !(step.Prepare? && !TakesRetry(cfg.policy, w.buffer))
    ensures var w' := Apply(cfg, w, step);
            && w'.nextId >= w.nextId && k in w'.buffer.pending
            && w'.buffer.pending[k].units >= w.buffer.pending[k].units
            && w'.buffer.pending[k].oldest <= w.buffer.pending[k].oldest
  {
  }

  lemma DrainCovers(w: World, batch: Batch, k: Key)
    requires Drained(w.buffer.pending, w.nextId, batch) && k in w.buffer.pending
    ensures Covers(batch, k, w.nextId, w.buffer.pending[k])
  {
    var a :| a in batch && AggregateKey(a) == k;
    assert Describes(w.buffer.pending, a);
  }

  /** And usage waiting under any key is offered within two: under an identifier that was not in use before, and in
      full. Offering a failed batch of the same customer and meter again does not count. */
  lemma {:induction false} FreshUsageIsOffered(cfg: Config, w: World, steps: seq<Step>, k: Key)
    requires cfg.policy == Interleave && Runs(cfg, w, steps)
    requires k in w.buffer.pending
    requires Flushes(steps) >= if w.buffer.servePendingNext then 1 else 2
    ensures OffersFresh(steps, k, w.nextId, w.buffer.pending[k])
    decreases |steps|
  {
    var step := steps[0];
    assert step in steps;
    if step.Prepare? && !TakesRetry(cfg.policy, w.buffer) {
      DrainCovers(w, step.batch, k);
    } else {
      var w' := Apply(cfg, w, step);
      PendingGrows(cfg, w, step, k);
      FreshUsageIsOffered(cfg, w', steps[1..], k);
      var later :| later in steps[1..] && later.Prepare? && Covers(later.batch, k, w'.nextId, w'.buffer.pending[k]);
      CoversMore(later.batch, k, w'.nextId, w'.buffer.pending[k], w.nextId, w.buffer.pending[k]);
      assert later in steps;
    }
  }

  lemma CoversMore(batch: Batch, k: Key, firstId: nat, pending: Pending, earlierId: nat, less: Pending)
    requires Covers(batch, k, firstId, pending)
    requires earlierId <= firstId && less.units <= pending.units && pending.oldest <= less.oldest
    ensures Covers(batch, k, earlierId, less)
  {
    var a :| a in batch && AggregateKey(a) == k && a.identifier >= firstId
             && a.units >= pending.units && a.timestamp <= pending.oldest;
  }

  /** In a reachable world no aggregate has the identifier of the usage still to come, so what `FreshUsageIsOffered`
      promises is none of the batches that failed. */
  lemma FreshIdentifiersAreUnused(cfg: Config, past: seq<Step>, id: nat)
    requires Run(cfg, INITIAL, past).Some? && id >= Run(cfg, INITIAL, past).value.nextId
    ensures id !in Run(cfg, INITIAL, past).value.issued
    ensures forall a: Aggregate | a.identifier == id :: Circulating(Run(cfg, INITIAL, past).value)[a] == 0
  {
    SoundRun(cfg, past);
    var w := Run(cfg, INITIAL, past).value;
    assert forall i | i in w.issued :: AggregateOf(w.entries, w.issued[i], i) && i < w.nextId;
  }
}
