/** Atomic, expiring, owner-checked reservations. */
module ReplayStore {
  import opened Prelude

  datatype Entry = Entry(expires: nat, owner: nat)

  datatype Reservation<K> = Reservation(key: K, owner: nat)

  datatype StoreError = Unavailable

  const CAPACITY := 100_000

  /** What `retain` keeps. */
  function Live<K>(entries: map<K, Entry>, now: nat): map<K, Entry> {
    map k | k in entries && entries[k].expires > now :: entries[k]
  }

  /** A reservation succeeds when no live entry holds the key, and either way the key is held afterwards. `owner`
      stands for a fresh UUID. */
  function Reserve<K>(entries: map<K, Entry>, key: K, retainFor: nat, now: nat,
                      owner: nat): (r: (map<K, Entry>, Option<Reservation<K>>))
    ensures r.1.Some? <==> key !in entries || entries[key].expires <= now
    ensures r.0.Keys == (set k | k in entries && entries[k].expires > now) + {key}
    ensures r.1.Some?
            ==> key in r.0 && r.1.value == Reservation(key, owner) && r.0[key] == Entry(now + retainFor, owner)
    ensures forall k | k in r.0 && (k != key || r.1.None?) :: k in entries && r.0[k] == entries[k]
  {
    var live := Live(entries, now);
    if key in live then (live, None) else (live[key := Entry(now + retainFor, owner)], Some(Reservation(key, owner)))
  }

  function Release<K>(entries: map<K, Entry>, r: Reservation<K>): map<K, Entry> {
    if r.key in entries && entries[r.key].owner == r.owner then entries - {r.key} else entries
  }

  /** A release frees its own reservation and nobody else's, however late it runs. */
  lemma ReleaseFreesOnlyItsOwn<K>(entries: map<K, Entry>, r: Reservation<K>, key: K)
    requires key in entries
    ensures key in Release(entries, r) <==> !(key == r.key && entries[key].owner == r.owner)
    ensures key in Release(entries, r) ==> Release(entries, r)[key] == entries[key]
  {
  }

  // ---------------------------------------------------------------- what a reservation is good for

  /** Anything instances do to the store they share. */
  datatype Operation<K> =
    | ReserveOp(key: K, retainFor: nat, now: nat, owner: nat)
    | ReleaseOp(reservation: Reservation<K>)

  function RunAll<K>(entries: map<K, Entry>, operations: seq<Operation<K>>): map<K, Entry> {
    if operations == [] then entries
    else
      var before := RunAll(entries, operations[..|operations| - 1]);
      match operations[|operations| - 1]
      case ReserveOp(key, retainFor, now, owner) => Reserve(before, key, retainFor, now, owner).0
      case ReleaseOp(reservation) => Release(before, reservation)
  }

  /** The key's owner does not release it, and nothing is reserved at or after its expiry. */
  predicate LeavesAlone<K(==)>(operations: seq<Operation<K>>, mine: Reservation<K>, expires: nat) {
    forall op | op in operations :: op != ReleaseOp(mine) && (op.ReserveOp? ==> op.now < expires)
  }

  lemma {:induction false} EntryStays<K>(entries: map<K, Entry>, mine: Reservation<K>, expires: nat,
                                         operations: seq<Operation<K>>)
    requires mine.key in entries && entries[mine.key] == Entry(expires, mine.owner)
             && LeavesAlone(operations, mine, expires)
    ensures var after := RunAll(entries, operations);
            mine.key in after && after[mine.key] == Entry(expires, mine.owner)
  {
    if operations != [] {
      var n := |operations| - 1;
      assert operations[n] in operations;
      EntryStays(entries, mine, expires, operations[..n]);
    }
  }

  /** A reservation made at `at` holds for exactly its retention: whatever other callers do meanwhile, with whatever
      keys, clocks and stale reservations, a further reservation of the key succeeds if and only if the retention is
      over. */
  lemma ReservationLasts<K>(entries: map<K, Entry>, key: K, retainFor: nat, at: nat, owner: nat,
                            operations: seq<Operation<K>>, again: nat, now: nat, other: nat)
    requires Reserve(entries, key, retainFor, at, owner).1.Some?
    requires LeavesAlone(operations, Reservation(key, owner), at + retainFor)
    ensures var later := RunAll(Reserve(entries, key, retainFor, at, owner).0, operations);
            Reserve(later, key, again, now, other).1.Some? <==> now >= at + retainFor
  {
    EntryStays(Reserve(entries, key, retainFor, at, owner).0, Reservation(key, owner), at + retainFor, operations);
  }

  /** The owner's own release ends it at once. */
  lemma OwnReleaseFrees<K>(entries: map<K, Entry>, key: K, retainFor: nat, at: nat, owner: nat,
                           operations: seq<Operation<K>>, again: nat, now: nat, other: nat)
    requires Reserve(entries, key, retainFor, at, owner).1.Some?
    requires LeavesAlone(operations, Reservation(key, owner), at + retainFor)
    ensures var held := RunAll(Reserve(entries, key, retainFor, at, owner).0, operations);
            Reserve(Release(held, Reservation(key, owner)), key, again, now, other).1.Some?
  {
    EntryStays(Reserve(entries, key, retainFor, at, owner).0, Reservation(key, owner), at + retainFor, operations);
  }

  class InMemoryReplayStore<K(==)> {
    /** The last instant the clock can represent. */
    const lastInstant: nat
    var entries: map<K, Entry>

    constructor (lastInstant: nat)
      ensures entries == map[] && this.lastInstant == lastInstant
    {
      this.lastInstant := lastInstant;
      entries := map[];
    }

    /** Retention that is nothing, or that ends where the clock cannot go, is refused. */
    predicate Retainable(retainFor: nat, now: nat) {
      retainFor > 0 && now + retainFor <= lastInstant
    }

    method ReserveKey(key: K, retainFor: nat, now: nat, owner: nat)
        returns (result: Result<Option<Reservation<K>>, StoreError>)
      modifies this
      ensures !Retainable(retainFor, now) ==> result == Err(Unavailable) && entries == old(entries)
      ensures Retainable(retainFor, now) && key !in Live(old(entries), now) && |Live(old(entries), now)| >= CAPACITY ==>
                result == Err(Unavailable) && entries == Live(old(entries), now)
      ensures Retainable(retainFor, now) && (key in Live(old(entries), now) || |Live(old(entries), now)| < CAPACITY) ==>
                result.Ok? && (entries, result.value) == Reserve(old(entries), key, retainFor, now, owner)
    {
      if !Retainable(retainFor, now) {
        return Err(Unavailable);
      }
      entries := Live(entries, now);
      if key in entries {
        return Ok(None);
      }
      if |entries| >= CAPACITY {
        return Err(Unavailable);
      }
      entries := entries[key := Entry(now + retainFor, owner)];
      return Ok(Some(Reservation(key, owner)));
    }

    method ReleaseKey(reservation: Reservation<K>)
      modifies this
      ensures entries == Release(old(entries), reservation)
    {
      if reservation.key in entries && entries[reservation.key].owner == reservation.owner {
        entries := entries - {reservation.key};
      }
    }
  }
}
