/** The in-memory aggregator: idempotency window, (customer, meter) aggregates and the retry queue. */
module UsageBuffer {
  import opened Prelude

  datatype UsageEvent = UsageEvent(tenant: string, customer: string, meter: string, units: u64,
                                   idempotencyKey: Option<string>, timestamp: u64)

  datatype Key = Key(customer: string, meter: string)

  datatype ScopedKey = ScopedKey(tenant: string, key: string)

  datatype Pending = Pending(units: u64, oldest: u64)

  /** `identifier` stands for a version-4 UUID: a number no other aggregate has. */
  datatype Aggregate = Aggregate(identifier: nat, customer: string, meter: string, units: u64, timestamp: u64)

  type Batch = seq<Aggregate>

  datatype RecordOutcome = Recorded | Duplicate | ZeroUnits

  datatype RecordError = UnitsOverflow

  datatype RetryPolicy = Interleave | CompleteBatch

  /** What the buffer means: `window` is the idempotency memory, oldest key first. */
  datatype BufferState = BufferState(pending: map<Key, Pending>, retry: seq<Batch>, window: seq<ScopedKey>,
                                     servePendingNext: bool)

  const EMPTY := BufferState(map[], [], [], false)

  function EventKey(e: UsageEvent): Key {
    Key(e.customer, e.meter)
  }

  function AggregateKey(a: Aggregate): Key {
    Key(a.customer, a.meter)
  }

  function PendingUnits(s: BufferState, k: Key): u64 {
    if k in s.pending then s.pending[k].units else 0
  }

  predicate Keyed(e: UsageEvent) {
    e.idempotencyKey.Some?
  }

  function Scoped(e: UsageEvent): ScopedKey
    requires Keyed(e)
  {
    ScopedKey(e.tenant, e.idempotencyKey.value)
  }

  /** The last `n` elements. */
  function LastOf<T>(s: seq<T>, n: nat): seq<T> {
    if |s| <= n then s else s[|s| - n..]
  }

  function Min(a: u64, b: u64): u64 {
    if a <= b then a else b
  }

  /** What recording one event does to a buffer that remembers at most `limit` keys. */
  function Record(s: BufferState, limit: nat, e: UsageEvent): (r: (BufferState, Result<RecordOutcome, RecordError>))
    ensures r.1 != Ok(Recorded) ==> r.0 == s
  {
    var k := EventKey(e);
    if e.units == 0 then (s, Ok(ZeroUnits))
    else if Keyed(e) && Scoped(e) in s.window then (s, Ok(Duplicate))
    else if PendingUnits(s, k) + e.units > U64_MAX then (s, Err(UnitsOverflow))
    else
      var oldest := if k in s.pending then Min(s.pending[k].oldest, e.timestamp) else e.timestamp;
      (s.(pending := s.pending[k := Pending(PendingUnits(s, k) + e.units, oldest)],
          window := if Keyed(e) then LastOf(s.window + [Scoped(e)], limit) else s.window),
       Ok(Recorded))
  }

  predicate KeyLess(a: Key, b: Key) {
    Less(a.customer, b.customer) || (a.customer == b.customer && Less(a.meter, b.meter))
  }

  /** Whether the next flush re-offers the oldest failed batch instead of fresh usage. */
  predicate TakesRetry(policy: RetryPolicy, s: BufferState) {
    s.retry != [] && (policy == CompleteBatch || !s.servePendingNext || s.pending == map[])
  }

  predicate Describes(pending: map<Key, Pending>, a: Aggregate) {
    AggregateKey(a) in pending && pending[AggregateKey(a)] == Pending(a.units, a.timestamp)
  }

  predicate HasKey(batch: Batch, k: Key) {
    exists a | a in batch :: AggregateKey(a) == k
  }

  predicate SortedByKey(batch: Batch) {
    forall i, j | 0 <= i < j < |batch| :: KeyLess(AggregateKey(batch[i]), AggregateKey(batch[j]))
  }

  predicate DistinctIds(batch: Batch) {
    forall i, j | 0 <= i < j < |batch| :: batch[i].identifier != batch[j].identifier
  }

  predicate IdsWithin(batch: Batch, lo: nat, hi: nat) {
    forall a | a in batch :: lo <= a.identifier < hi
  }

  /** `batch` is `pending` drained: one aggregate a key, in key order, each under its own new identifier. */
  predicate Drained(pending: map<Key, Pending>, firstId: nat, batch: Batch) {
    && (forall a | a in batch :: Describes(pending, a))
    && (forall k | k in pending :: HasKey(batch, k))
    && SortedByKey(batch)
    && DistinctIds(batch)
    && IdsWithin(batch, firstId, firstId + |batch|)
  }

  lemma KeyLessTransitive(a: Key, b: Key, c: Key)
    requires KeyLess(a, b) && KeyLess(b, c)
    ensures KeyLess(a, c)
  {
    if Less(a.customer, b.customer) && Less(b.customer, c.customer) {
      LessTransitive(a.customer, b.customer, c.customer);
    }
    if Less(a.meter, b.meter) && Less(b.meter, c.meter) {
      LessTransitive(a.meter, b.meter, c.meter);
    }
  }

  lemma KeyLessTotal(a: Key, b: Key)
    ensures KeyLess(a, b) || a == b || KeyLess(b, a)
    ensures !(KeyLess(a, b) && KeyLess(b, a)) && (a == b ==> !KeyLess(a, b))
  {
    LessTotal(a.customer, b.customer);
    LessTotal(a.meter, b.meter);
  }

  /** In a drained batch customers come in byte order, and each customer's meters in theirs. */
  lemma CustomersThenMeters(pending: map<Key, Pending>, firstId: nat, batch: Batch, i: nat, j: nat)
    requires Drained(pending, firstId, batch) && i < j < |batch|
    ensures batch[i].customer == batch[j].customer || Less(batch[i].customer, batch[j].customer)
    ensures batch[i].customer == batch[j].customer ==> Less(batch[i].meter, batch[j].meter)
  {
    LessTotal(batch[i].customer, batch[j].customer);
  }

  /** Two drains of the same usage differ only in their identifiers. */
  lemma {:induction false} DrainIsDetermined(pending: map<Key, Pending>, m: nat, a: Batch, n: nat, b: Batch, i: nat)
    requires Drained(pending, m, a) && Drained(pending, n, b)
    requires i < |a|
    ensures i < |b| && a[i] == b[i].(identifier := a[i].identifier)
    decreases i
  {
    forall j | 0 <= j < i ensures j < |b| && AggregateKey(a[j]) == AggregateKey(b[j]) {
      DrainIsDetermined(pending, m, a, n, b, j);
    }
    // The key of a[i] sits at some p in b. It is not before i, because those keys are a's earlier ones.
    assert a[i] in a;
    var p :| 0 <= p < |b| && AggregateKey(b[p]) == AggregateKey(a[i]);
    assert b[p] in b;
    if p < i {
      assert AggregateKey(a[p]) == AggregateKey(a[i]);
      KeyLessTotal(AggregateKey(a[p]), AggregateKey(a[i]));
      assert false;
    } else if p > i {
      NoEarlierKey(pending, m, a, n, b, i, p);
    }
  }

  /** If two drains agree before `i`, the key of a[i] does not sit later in b: b[i] would have no place in a. */
  lemma NoEarlierKey(pending: map<Key, Pending>, m: nat, a: Batch, n: nat, b: Batch, i: nat, p: nat)
    requires Drained(pending, m, a) && Drained(pending, n, b) && i < |a| && i <= p < |b|
    requires forall j | 0 <= j < i :: AggregateKey(a[j]) == AggregateKey(b[j])
    requires AggregateKey(b[p]) == AggregateKey(a[i])
    ensures p == i
  {
    if p > i {
      assert b[i] in b;
      var q :| 0 <= q < |a| && AggregateKey(a[q]) == AggregateKey(b[i]);
      KeyPositions(b, i, p);
      KeyPositions(a, q, i);
      KeyPositions(b, q, i);
      KeyPositions(b, i, i);
      assert false;
    }
  }

  /** In a sorted batch, keys compare as their positions do. */
  lemma KeyPositions(batch: Batch, i: nat, j: nat)
    requires SortedByKey(batch) && i < |batch| && j < |batch|
    ensures KeyLess(AggregateKey(batch[i]), AggregateKey(batch[j])) <==> i < j
  {
    KeyLessTotal(AggregateKey(batch[i]), AggregateKey(batch[j]));
  }

  predicate NoDuplicates<T(==)>(s: seq<T>) {
    forall i, j | 0 <= i < j < |s| :: s[i] != s[j]
  }

  /** `mem::take` of the pending map, named and sorted. */
  method Drain(pending: map<Key, Pending>, firstId: nat) returns (batch: Batch)
    ensures Drained(pending, firstId, batch)
  {
    var rest := pending;
    batch := [];
    while rest != map[]
      invariant rest.Keys <= pending.Keys && forall k | k in rest :: rest[k] == pending[k]
      invariant forall a | a in batch :: Describes(pending, a) && AggregateKey(a) !in rest
      invariant forall k | k in pending && k !in rest :: HasKey(batch, k)
      invariant SortedByKey(batch) && DistinctIds(batch) && IdsWithin(batch, firstId, firstId + |batch|)
      decreases rest.Keys
    {
      var key :| key in rest;
      batch := InsertByKey(batch,
                           Aggregate(firstId + |batch|, key.customer, key.meter, rest[key].units, rest[key].oldest));
      rest := rest - {key};
    }
  }

  /** One step of the sort by customer, then meter. */
  method InsertByKey(batch: Batch, a: Aggregate) returns (sorted: Batch)
    requires SortedByKey(batch) && !HasKey(batch, AggregateKey(a))
    ensures SortedByKey(sorted)
    ensures |sorted| == |batch| + 1 && forall x :: x in sorted <==> x in batch || x == a
    ensures DistinctIds(batch) && (forall x | x in batch :: x.identifier != a.identifier) ==> DistinctIds(sorted)
  {
    var i := 0;
    while i < |batch| && KeyLess(AggregateKey(batch[i]), AggregateKey(a))
      invariant 0 <= i <= |batch|
      invariant forall j | 0 <= j < i :: KeyLess(AggregateKey(batch[j]), AggregateKey(a))
    {
      i := i + 1;
    }
    sorted := batch[..i] + [a] + batch[i..];
    SplicedInOrder(batch, a, i);
    SplicedMembers(batch, a, i);
    if DistinctIds(batch) && forall x | x in batch :: x.identifier != a.identifier {
      SplicedDistinct(batch, a, i);
    }
  }

  lemma SplicedMembers(batch: Batch, a: Aggregate, i: nat)
    requires i <= |batch|
    ensures forall x :: x in batch[..i] + [a] + batch[i..] <==> x in batch || x == a
  {
    assert batch == batch[..i] + batch[i..];
  }

  lemma SplicedDistinct(batch: Batch, a: Aggregate, i: nat)
    requires i <= |batch| && DistinctIds(batch) && forall x | x in batch :: x.identifier != a.identifier
    ensures DistinctIds(batch[..i] + [a] + batch[i..])
  {
    assert forall p | 0 <= p < |batch| :: batch[p] in batch;
  }

  lemma SplicedInOrder(batch: Batch, a: Aggregate, i: nat)
    requires SortedByKey(batch) && !HasKey(batch, AggregateKey(a)) && i <= |batch|
    requires forall j | 0 <= j < i :: KeyLess(AggregateKey(batch[j]), AggregateKey(a))
    requires i < |batch| ==> !KeyLess(AggregateKey(batch[i]), AggregateKey(a))
    ensures SortedByKey(batch[..i] + [a] + batch[i..])
  {
    forall j | i <= j < |batch| ensures KeyLess(AggregateKey(a), AggregateKey(batch[j])) {
      assert batch[i] in batch;
      KeyLessTotal(AggregateKey(a), AggregateKey(batch[i]));
      if i < j {
        KeyLessTransitive(AggregateKey(a), AggregateKey(batch[i]), AggregateKey(batch[j]));
      }
    }
  }

  class UsageBuffer {
    const maxIdempotencyKeys: nat
    var pending: map<Key, Pending>
    var retry: seq<Batch>
    var seen: set<ScopedKey>
    var seenOrder: seq<ScopedKey>
    var servePendingNext: bool

    /** `seen` is the duplicate-free set of `seenOrder`, and the window is bounded. */
    ghost predicate Valid()
      reads this
    {
      && NoDuplicates(seenOrder)
      && (forall k :: k in seen <==> k in seenOrder)
      && |seenOrder| <= maxIdempotencyKeys
    }

    ghost function Abstract(): BufferState
      reads this
    {
      BufferState(pending, retry, seenOrder, servePendingNext)
    }

    constructor (maxIdempotencyKeys: nat)
      ensures Valid() && Abstract() == EMPTY && this.maxIdempotencyKeys == maxIdempotencyKeys
    {
      this.maxIdempotencyKeys := maxIdempotencyKeys;
      pending, retry, seen, seenOrder, servePendingNext := map[], [], {}, [], false;
    }

    method RecordEvent(e: UsageEvent) returns (outcome: Result<RecordOutcome, RecordError>)
      requires Valid()
      modifies this
      ensures Valid()
      ensures (Abstract(), outcome) == Record(old(Abstract()), maxIdempotencyKeys, e)
    {
      if e.units == 0 {
        return Ok(ZeroUnits);
      }
      if Keyed(e) && Scoped(e) in seen {
        return Ok(Duplicate);
      }
      var key := EventKey(e);
      var nextUnits := (if key in pending then pending[key].units else 0) + e.units;
      if nextUnits > U64_MAX {
        return Err(UnitsOverflow);
      }
      if Keyed(e) && maxIdempotencyKeys > 0 {
        seen := seen + {Scoped(e)};
        seenOrder := seenOrder + [Scoped(e)];
        ghost var all := seenOrder;
        while |seenOrder| > maxIdempotencyKeys
          invariant pending == old(pending) && retry == old(retry) && servePendingNext == old(servePendingNext)
          invariant seenOrder == all || seenOrder == LastOf(all, maxIdempotencyKeys)
          invariant NoDuplicates(seenOrder)
          invariant forall k :: k in seen <==> k in seenOrder
        {
          var expired := seenOrder[0];
          seen := seen - {expired};
          seenOrder := seenOrder[1..];
        }
      }
      assert Keyed(e) ==> seenOrder == LastOf(old(seenOrder) + [Scoped(e)], maxIdempotencyKeys);
      var aggregate := if key in pending then pending[key] else Pending(0, e.timestamp);
      pending := pending[key := Pending(nextUnits, Min(aggregate.oldest, e.timestamp))];
      return Ok(Recorded);
    }

    /** Choose the batch the next export offers. Fresh aggregates are named from `firstId` on. */
    method PrepareFlush(policy: RetryPolicy, firstId: nat) returns (batch: Batch)
      requires Valid()
      modifies this
      ensures Valid()
      ensures TakesRetry(policy, old(Abstract())) ==>
                && batch == old(retry[0])
                && Abstract() == old(Abstract()).(retry := old(retry[1..]), servePendingNext := true)
      ensures !TakesRetry(policy, old(Abstract())) ==>
                && Drained(old(pending), firstId, batch)
                && Abstract() == old(Abstract()).(pending := map[], servePendingNext := false)
    {
      var takeRetry := |retry| > 0 && (policy == CompleteBatch || !servePendingNext || |pending| == 0);
      if takeRetry {
        servePendingNext := true;
        batch := retry[0];
        retry := retry[1..];
        return;
      }
      servePendingNext := false;
      batch := Drain(pending, firstId);
      pending := map[];
    }

    method RestoreAfterInterruption(batch: Batch)
      requires Valid()
      modifies this
      ensures Valid() && Abstract() == old(Abstract()).(retry := old(retry) + [batch])
    {
      retry := retry + [batch];
    }
  }
}
