/** The in-process attribution store: a map, a queue of generations that is compacted late, and the list it
    implements. */
module TaskStore {
  import opened Prelude

  datatype TaskEntry<V> = TaskEntry(attribution: V, generation: nat)

  datatype Queued<K> = Queued(key: K, generation: nat)

  /** What the store means: the live associations, oldest first. */
  type Fifo<K, V> = seq<(K, V)>

  predicate Has<K(==), V>(live: Fifo<K, V>, key: K) {
    exists i | 0 <= i < |live| :: live[i].0 == key
  }

  function Drop<K(==), V>(live: Fifo<K, V>, key: K): Fifo<K, V> {
    if live == [] then []
    else Drop(live[..|live| - 1], key) + if live[|live| - 1].0 == key then [] else [live[|live| - 1]]
  }

  /** First writer wins; a full store forgets its oldest association. */
  function Insert<K(==), V>(live: Fifo<K, V>, capacity: nat, key: K, value: V): Fifo<K, V> {
    if capacity == 0 || Has(live, key) then live
    else (if |live| >= capacity then live[1..] else live) + [(key, value)]
  }

  function Find<K(==), V>(live: Fifo<K, V>, key: K): Option<V> {
    if live == [] then None
    else if live[0].0 == key then Some(live[0].1)
    else Find(live[1..], key)
  }

  // ---------------------------------------------------------------- the list is a bounded first-writer-wins map

  lemma {:induction false} FindInPieces<K, V>(a: Fifo<K, V>, b: Fifo<K, V>, key: K)
    ensures Find(a + b, key) == if Find(a, key).Some? then Find(a, key) else Find(b, key)
  {
    if a == [] {
      assert a + b == b;
    } else {
      assert (a + b)[1..] == a[1..] + b;
      FindInPieces(a[1..], b, key);
    }
  }

  /** Dropping a key forgets that key and no other. */
  lemma {:induction false} DropForgetsOne<K, V>(live: Fifo<K, V>, key: K, other: K)
    ensures Find(Drop(live, key), other) == if other == key then None else Find(live, other)
  {
    if live != [] {
      var init, last := live[..|live| - 1], live[|live| - 1];
      assert live == init + [last];
      DropForgetsOne(init, key, other);
      FindInPieces(init, [last], other);
      FindInPieces(Drop(init, key), [last], other);
      assert Drop(init, key) + [] == Drop(init, key);
    }
  }

  /** A first writer is remembered and a second ignored; the one association a full store forgets for it is its
      oldest. */
  lemma FirstWriterWins<K, V>(live: Fifo<K, V>, capacity: nat, key: K, value: V, other: K)
    requires capacity > 0 && |live| <= capacity
    requires forall i, j | 0 <= i < j < |live| :: live[i].0 != live[j].0
    ensures var after := Insert(live, capacity, key, value);
            && |after| <= capacity
            && (if Find(live, key).Some? then after == live
                else after == (if |live| == capacity then live[1..] else live) + [(key, value)])
            && Insert(live, 0, key, value) == live
            && Find(after, key) == (if Find(live, key).Some? then Find(live, key) else Some(value))
            && (other != key ==>
                  Find(after, other) == if Find(live, key).None? && |live| == capacity && other == live[0].0 then None
                      else Find(live, other))
  {
    FindIsMember(live, key);
    if !Has(live, key) {
      var kept := if |live| >= capacity then live[1..] else live;
      FindInPieces(kept, [(key, value)], key);
      FindInPieces(kept, [(key, value)], other);
      FindIsMember(kept, key);
      FindIsMember(kept, other);
      assert forall i | 0 <= i < |kept| :: kept[i] in live;
    }
  }

  // ---------------------------------------------------------------- how the queue represents the list

  function Lookup<K, V>(tasks: map<K, TaskEntry<V>>, q: Queued<K>): Option<V> {
    if q.key in tasks && tasks[q.key].generation == q.generation then Some(tasks[q.key].attribution) else None
  }

  /** The queue entries that still name a stored task. */
  function Live<K, V>(tasks: map<K, TaskEntry<V>>, order: seq<Queued<K>>): Fifo<K, V> {
    if order == [] then []
    else
      var last := order[|order| - 1];
      var found := Lookup(tasks, last);
      Live(tasks, order[..|order| - 1]) + if found.Some? then [(last.key, found.value)] else []
  }

  predicate Ascending<K>(order: seq<Queued<K>>, next: nat) {
    && (forall i, j | 0 <= i < j < |order| :: order[i].generation < order[j].generation)
    && (forall i | 0 <= i < |order| :: order[i].generation < next)
  }

  /** Every stored task is queued under its generation; with ascending generations, in one place. */
  predicate Queues<K, V>(tasks: map<K, TaskEntry<V>>, order: seq<Queued<K>>) {
    forall k | k in tasks :: Queued(k, tasks[k].generation) in order
  }

  lemma {:induction false} LiveCongruent<K, V>(a: map<K, TaskEntry<V>>, b: map<K, TaskEntry<V>>, order: seq<Queued<K>>)
    requires forall q | q in order :: Lookup(a, q) == Lookup(b, q)
    ensures Live(a, order) == Live(b, order)
  {
    if order != [] {
      LiveCongruent(a, b, order[..|order| - 1]);
    }
  }

  lemma {:induction false} LiveFront<K, V>(tasks: map<K, TaskEntry<V>>, order: seq<Queued<K>>)
    requires order != []
    ensures var found := Lookup(tasks, order[0]);
            Live(tasks, order) == (if found.Some? then [(order[0].key, found.value)] else []) + Live(tasks, order[1..])
  {
    if |order| > 1 {
      LiveFront(tasks, order[..|order| - 1]);
      assert order[1..][..|order| - 2] == order[..|order| - 1][1..];
    }
  }

  /** Popping the front of the queue forgets the front of the list if the entry is live, and nothing otherwise. */
  lemma PopFront<K, V>(tasks: map<K, TaskEntry<V>>, order: seq<Queued<K>>, next: nat)
    requires order != [] && Ascending(order, next) && Queues(tasks, order)
    ensures Ascending(order[1..], next)
    ensures var q := order[0];
            if Lookup(tasks, q).Some?
            then Live(tasks, order) == [(q.key, Lookup(tasks, q).value)] + Live(tasks - {q.key}, order[1..])
                 && Queues(tasks - {q.key}, order[1..])
            else Live(tasks, order) == Live(tasks, order[1..]) && Queues(tasks, order[1..])
  {
    LiveFront(tasks, order);
    assert order == [order[0]] + order[1..];
    if Lookup(tasks, order[0]).Some? {
      OthersStay(tasks, order, next);
      LiveCongruent(tasks, tasks - {order[0].key}, order[1..]);
    }
  }

  /** A table and a queue that fit together and keep their bounds. */
  predicate Represents<K, V>(tasks: map<K, TaskEntry<V>>, order: seq<Queued<K>>, next: nat, maxTasks: nat) {
    && Ascending(order, next)
    && Queues(tasks, order)
    && |tasks| <= maxTasks
    && |order| <= |tasks| + 2 * maxTasks
  }

  function Popped<K, V>(tasks: map<K, TaskEntry<V>>, q: Queued<K>): map<K, TaskEntry<V>> {
    if Lookup(tasks, q).Some? then tasks - {q.key} else tasks
  }

  /** One turn of the eviction loop, on values: the list loses its oldest association or nothing. */
  lemma PopSummary<K, V>(tasks: map<K, TaskEntry<V>>, order: seq<Queued<K>>, next: nat, maxTasks: nat)
    requires order != [] && Represents(tasks, order, next, maxTasks)
    ensures var rest := Popped(tasks, order[0]);
            Represents(rest, order[1..], next, maxTasks) && rest.Keys <= tasks.Keys && PoppedList(tasks, order, rest)
  {
    PopFront(tasks, order, next);
    RemoveKey(tasks, order[0].key);
  }

  ghost predicate PoppedList<K, V>(tasks: map<K, TaskEntry<V>>, order: seq<Queued<K>>, rest: map<K, TaskEntry<V>>)
    requires order != []
  {
    if Lookup(tasks, order[0]).Some?
    then |rest| == |tasks| - 1 && Live(tasks, order) != [] && Live(rest, order[1..]) == Live(tasks, order)[1..]
    else |rest| == |tasks| && Live(rest, order[1..]) == Live(tasks, order)
  }

  /** A live front entry is the only one its task answers to. */
  lemma OthersStay<K, V>(tasks: map<K, TaskEntry<V>>, order: seq<Queued<K>>, next: nat)
    requires order != [] && Ascending(order, next) && Lookup(tasks, order[0]).Some?
    ensures forall q | q in order[1..] :: Lookup(tasks, q) == Lookup(tasks - {order[0].key}, q)
  {
    forall q | q in order[1..] ensures Lookup(tasks, q) == Lookup(tasks - {order[0].key}, q) {
      var i :| 0 <= i < |order[1..]| && order[1..][i] == q;
      assert order[0].generation < order[i + 1].generation;
    }
  }

  lemma Push<K, V>(tasks: map<K, TaskEntry<V>>, order: seq<Queued<K>>, next: nat, key: K, value: V)
    requires Ascending(order, next) && Queues(tasks, order) && key !in tasks
    ensures var tasks' := tasks[key := TaskEntry(value, next)];
            var order' := order + [Queued(key, next)];
            Live(tasks', order') == Live(tasks, order) + [(key, value)] && Ascending(order', next + 1)
                && Queues(tasks', order')
  {
    var tasks' := tasks[key := TaskEntry(value, next)];
    var order' := order + [Queued(key, next)];
    assert order'[..|order|] == order;
    forall q | q in order ensures Lookup(tasks, q) == Lookup(tasks', q) {
      var i :| 0 <= i < |order| && order[i] == q;
    }
    LiveCongruent(tasks, tasks', order);
  }

  lemma {:induction false} Remove<K, V>(tasks: map<K, TaskEntry<V>>, order: seq<Queued<K>>, key: K)
    ensures Live(tasks - {key}, order) == Drop(Live(tasks, order), key)
  {
    if order != [] {
      var init := order[..|order| - 1];
      Remove(tasks, init, key);
      var last := order[|order| - 1];
      var live := Live(tasks, order);
      if Lookup(tasks, last).Some? {
        assert live[..|live| - 1] == Live(tasks, init);
      } else {
        assert Lookup(tasks - {key}, last).None?;
        assert live == Live(tasks, init);
        assert Live(tasks - {key}, order) == Live(tasks - {key}, init);
      }
    }
  }

  lemma {:induction false} LiveHas<K, V>(tasks: map<K, TaskEntry<V>>, order: seq<Queued<K>>, key: K)
    requires Queues(tasks, order)
    ensures Has(Live(tasks, order), key) <==> key in tasks
    ensures Find(Live(tasks, order), key) == if key in tasks then Some(tasks[key].attribution) else None
  {
    LiveMembers(tasks, order);
    if key in tasks {
      assert (key, tasks[key].attribution) in Live(tasks, order);
    }
    FindIsMember(Live(tasks, order), key);
  }

  lemma {:induction false} LiveMembers<K, V>(tasks: map<K, TaskEntry<V>>, order: seq<Queued<K>>)
    ensures forall p | p in Live(tasks, order) :: p.0 in tasks && p.1 == tasks[p.0].attribution
    ensures forall q | q in order && Lookup(tasks, q).Some? :: (q.key, Lookup(tasks, q).value) in Live(tasks, order)
  {
    if order != [] {
      LiveMembers(tasks, order[..|order| - 1]);
    }
  }

  lemma {:induction false} FindIsMember<K, V>(live: Fifo<K, V>, key: K)
    ensures Find(live, key).Some? <==> Has(live, key)
    ensures Find(live, key).Some? ==> (key, Find(live, key).value) in live
  {
    if live != [] && live[0].0 != key {
      FindIsMember(live[1..], key);
      if Has(live[1..], key) {
        var i :| 0 <= i < |live[1..]| && live[1..][i].0 == key;
        assert live[i + 1].0 == key;
      }
      if Has(live, key) {
        var i :| 0 <= i < |live| && live[i].0 == key;
        assert live[1..][i - 1].0 == key;
      }
    }
  }

  lemma RemoveKey<K, V>(tasks: map<K, V>, key: K)
    ensures |tasks - {key}| == if key in tasks then |tasks| - 1 else |tasks|
  {
    assert |(tasks - {key}).Keys| == |tasks - {key}| && |tasks.Keys| == |tasks|;
    if key in tasks {
      assert tasks.Keys == (tasks - {key}).Keys + {key};
    } else {
      assert tasks - {key} == tasks;
    }
  }

  /** As many live queue entries as stored tasks. */
  lemma {:induction false} LiveCount<K, V>(tasks: map<K, TaskEntry<V>>, order: seq<Queued<K>>, next: nat)
    requires Ascending(order, next) && Queues(tasks, order)
    ensures |Live(tasks, order)| == |tasks| <= |order|
    decreases |order|
  {
    if order == [] {
      assert forall k :: k !in tasks;
      assert tasks == map[];
    } else {
      PopFront(tasks, order, next);
      var q := order[0];
      if Lookup(tasks, q).Some? {
        LiveCount(tasks - {q.key}, order[1..], next);
        RemoveKey(tasks, q.key);
      } else {
        LiveCount(tasks, order[1..], next);
      }
    }
  }

  /** What `retain` keeps of the queue. */
  function Compact<K, V>(tasks: map<K, TaskEntry<V>>, order: seq<Queued<K>>): seq<Queued<K>> {
    if order == [] then []
    else
      var last := order[|order| - 1];
      Compact(tasks, order[..|order| - 1]) + if Lookup(tasks, last).Some? then [last] else []
  }

  lemma {:induction false} CompactMembers<K, V>(tasks: map<K, TaskEntry<V>>, order: seq<Queued<K>>)
    ensures forall q :: q in Compact(tasks, order) <==> q in order && Lookup(tasks, q).Some?
  {
    if order != [] {
      CompactMembers(tasks, order[..|order| - 1]);
      assert order == order[..|order| - 1] + [order[|order| - 1]];
    }
  }

  lemma {:induction false} CompactAscends<K, V>(tasks: map<K, TaskEntry<V>>, order: seq<Queued<K>>, next: nat)
    requires Ascending(order, next)
    ensures Ascending(Compact(tasks, order), next)
    ensures order != [] ==> Ascending(Compact(tasks, order), order[|order| - 1].generation + 1)
  {
    if |order| > 1 {
      var init, last := order[..|order| - 1], order[|order| - 1];
      CompactAscends(tasks, init, next);
      assert init[|init| - 1].generation < last.generation;
    }
  }

  lemma {:induction false} CompactKeeps<K, V>(tasks: map<K, TaskEntry<V>>, order: seq<Queued<K>>)
    ensures Live(tasks, Compact(tasks, order)) == Live(tasks, order) && |Compact(tasks, order)| == |Live(tasks, order)|
  {
    if order != [] {
      var init, last := order[..|order| - 1], order[|order| - 1];
      CompactKeeps(tasks, init);
      var kept := Compact(tasks, init);
      if Lookup(tasks, last).Some? {
        assert (kept + [last])[..|kept|] == kept;
      } else {
        assert Compact(tasks, order) == kept && Live(tasks, order) == Live(tasks, init);
      }
    }
  }

  /** Compacting keeps the list and leaves one queue entry a task. */
  lemma CompactSummary<K, V>(tasks: map<K, TaskEntry<V>>, order: seq<Queued<K>>, next: nat)
    requires Ascending(order, next) && Queues(tasks, order)
    ensures var kept := Compact(tasks, order);
            Ascending(kept, next) && Queues(tasks, kept) && |kept| == |tasks| && Live(tasks, kept) == Live(tasks, order)
  {
    LiveCount(tasks, order, next);
    CompactKeeps(tasks, order);
    CompactAscends(tasks, order, next);
    CompactMembers(tasks, order);
  }

  /** Generations ascend, so a stored task is live in one place of the queue. */
  lemma {:induction false} LiveIsDistinct<K, V>(tasks: map<K, TaskEntry<V>>, order: seq<Queued<K>>, next: nat)
    requires Ascending(order, next)
    ensures forall i, j | 0 <= i < j < |Live(tasks, order)| :: Live(tasks, order)[i].0 != Live(tasks, order)[j].0
  {
    if order != [] {
      var init, last := order[..|order| - 1], order[|order| - 1];
      LiveIsDistinct(tasks, init, next);
      LiveIsQueued(tasks, init);
    }
  }

  lemma {:induction false} LiveIsQueued<K, V>(tasks: map<K, TaskEntry<V>>, order: seq<Queued<K>>)
    ensures forall i | 0 <= i < |Live(tasks, order)| ::
              Live(tasks, order)[i].0 in tasks
                  && Queued(Live(tasks, order)[i].0, tasks[Live(tasks, order)[i].0].generation) in order
  {
    if order != [] {
      LiveIsQueued(tasks, order[..|order| - 1]);
    }
  }

  class InMemoryTaskStore<K(==), V> {
    const maxTasks: nat
    var tasks: map<K, TaskEntry<V>>
    var insertionOrder: seq<Queued<K>>
    var nextGeneration: nat

    ghost predicate Valid()
      reads this
    {
      Represents(tasks, insertionOrder, nextGeneration, maxTasks)
    }

    ghost function Abstract(): Fifo<K, V>
      reads this
    {
      Live(tasks, insertionOrder)
    }

    constructor (maxTasks: nat)
      ensures Valid() && Abstract() == [] && this.maxTasks == maxTasks
    {
      this.maxTasks := maxTasks;
      tasks, insertionOrder, nextGeneration := map[], [], 0;
    }

    method CompactOrderIfNeeded()
      requires Ascending(insertionOrder, nextGeneration) && Queues(tasks, insertionOrder) && |tasks| <= maxTasks
      modifies this`insertionOrder
      ensures Valid() && Abstract() == old(Abstract()) && |insertionOrder| <= 2 * maxTasks
    {
      if |insertionOrder| > 2 * maxTasks {
        CompactSummary(tasks, insertionOrder, nextGeneration);
        insertionOrder := Compact(tasks, insertionOrder);
      }
    }

    /** One turn of the eviction loop: the front of the queue goes, with its task if the entry still names one. */
    method PopOldest() returns (evicted: bool)
      requires Valid() && insertionOrder != []
      modifies this`tasks, this`insertionOrder
      ensures Valid() && insertionOrder == old(insertionOrder)[1..] && tasks.Keys <= old(tasks).Keys
      ensures |tasks| == if evicted then |old(tasks)| - 1 else |old(tasks)|
      ensures if evicted then old(Abstract()) != [] && Abstract() == old(Abstract())[1..]
              else Abstract() == old(Abstract())
    {
      PopSummary(tasks, insertionOrder, nextGeneration, maxTasks);
      var oldest := insertionOrder[0];
      insertionOrder := insertionOrder[1..];
      evicted := Lookup(tasks, oldest).Some?;
      tasks := Popped(tasks, oldest);
    }

    method InsertTask(key: K, attribution: V)
      requires Valid()
      modifies this
      ensures Valid() && |insertionOrder| <= 3 * maxTasks
      ensures Abstract() == Insert(old(Abstract()), maxTasks, key, attribution)
    {
      LiveHas(tasks, insertionOrder, key);
      LiveCount(tasks, insertionOrder, nextGeneration);
      if maxTasks == 0 || key in tasks {
        return;
      }
      var evicted := false;
      while |tasks| >= maxTasks
        invariant Valid() && key !in tasks && nextGeneration == old(nextGeneration)
        invariant |tasks| == if evicted then maxTasks - 1 else |old(tasks)|
        invariant evicted ==> |old(tasks)| == maxTasks
        invariant Abstract() == if evicted then old(Abstract())[1..] else old(Abstract())
        decreases |insertionOrder|
      {
        LiveCount(tasks, insertionOrder, nextGeneration);
        if insertionOrder == [] {
          // The source breaks out here; a full store always has a queue.
          assert false;
        }
        evicted := PopOldest();
      }
      AppendTask(key, attribution);
    }

    method AppendTask(key: K, attribution: V)
      requires Valid() && key !in tasks && |tasks| < maxTasks
      modifies this`tasks, this`insertionOrder, this`nextGeneration
      ensures Valid() && |insertionOrder| <= 3 * maxTasks && Abstract() == old(Abstract()) + [(key, attribution)]
    {
      Push(tasks, insertionOrder, nextGeneration, key, attribution);
      var generation := nextGeneration;
      nextGeneration := nextGeneration + 1;
      insertionOrder := insertionOrder + [Queued(key, generation)];
      tasks := tasks[key := TaskEntry(attribution, generation)];
    }

    method Get(key: K) returns (attribution: Option<V>)
      requires Valid()
      ensures attribution == Find(Abstract(), key)
    {
      LiveHas(tasks, insertionOrder, key);
      attribution := if key in tasks then Some(tasks[key].attribution) else None;
    }

    method Claim(key: K) returns (claimed: Option<V>)
      requires Valid()
      modifies this
      ensures Valid() && claimed == Find(old(Abstract()), key)
      ensures Abstract() == if claimed.Some? then Drop(old(Abstract()), key) else old(Abstract())
      ensures claimed.Some? ==> |insertionOrder| <= 2 * maxTasks
    {
      LiveHas(tasks, insertionOrder, key);
      claimed := None;
      if key in tasks {
        claimed := Some(tasks[key].attribution);
        Remove(tasks, insertionOrder, key);
        RemoveKey(tasks, key);
        tasks := tasks - {key};
        CompactOrderIfNeeded();
      }
    }

    method RemoveTask(key: K)
      requires Valid()
      modifies this
      ensures Valid() && Abstract() == Drop(old(Abstract()), key) && |insertionOrder| <= 2 * maxTasks
    {
      Remove(tasks, insertionOrder, key);
      RemoveKey(tasks, key);
      tasks := tasks - {key};
      CompactOrderIfNeeded();
    }
  }
}
