/** A bounded queue of accounting futures that were still pending when their response went away. */
module DeferredCompletions {
  import opened Prelude

  /** `lost` is history: the work discarded, whose number the `dropped` counter reports. */
  datatype Deferred<W> = Deferred(queue: seq<W>, lost: seq<W>)

  function Park<W>(d: Deferred<W>, capacity: nat, w: W): Deferred<W> {
    if capacity == 0 then d.(lost := d.lost + [w])
    else if |d.queue| >= capacity then Deferred(d.queue[1..] + [w], d.lost + [d.queue[0]])
    else d.(queue := d.queue + [w])
  }

  function Requeue<W>(d: Deferred<W>, capacity: nat, w: W): Deferred<W> {
    if capacity == 0 then d.(lost := d.lost + [w])
    else if |d.queue| >= capacity then Deferred([w] + d.queue[..|d.queue| - 1], d.lost + [d.queue[|d.queue| - 1]])
    else d.(queue := [w] + d.queue)
  }

  class DeferredCompletions<W> {
    const capacity: nat
    var queue: seq<W>
    var dropped: u64
    ghost var lost: seq<W>

    ghost predicate Valid()
      reads this
    {
      |queue| <= capacity && dropped == Saturate(|lost|)
    }

    ghost function Abstract(): Deferred<W>
      reads this
    {
      Deferred(queue, lost)
    }

    constructor (capacity: nat)
      ensures Valid() && Abstract() == Deferred([], []) && this.capacity == capacity
    {
      this.capacity := capacity;
      queue, dropped, lost := [], 0, [];
    }

    method RecordDrop()
      modifies `dropped
      ensures dropped == Saturate(old(dropped) + 1)
    {
      dropped := Saturate(dropped + 1);
    }

    method ParkWork(w: W) returns (accepted: bool)
      requires Valid()
      modifies this
      ensures Valid() && Abstract() == Park(old(Abstract()), capacity, w)
      ensures accepted <==> lost == old(lost)
    {
      if capacity == 0 {
        RecordDrop();
        lost := lost + [w];
        return false;
      }
      var evicted := false;
      while |queue| >= capacity
        invariant |queue| <= capacity && dropped == old(dropped)
        invariant !evicted ==> Abstract() == old(Abstract())
        invariant evicted
                  ==> |old(queue)| == capacity && Abstract() == Deferred(old(queue)[1..], old(lost) + [old(queue)[0]])
        decreases |queue|
      {
        lost := lost + [queue[0]];
        queue := queue[1..];
        evicted := true;
      }
      queue := queue + [w];
      if evicted {
        RecordDrop();
      }
      return !evicted;
    }

    method TakeOne() returns (w: Option<W>)
      requires Valid()
      modifies this
      ensures Valid() && lost == old(lost)
      ensures w.None? <==> old(queue) == []
      ensures w.None? ==> queue == old(queue)
      ensures w.Some? ==> old(queue) == [w.value] + queue
    {
      if queue == [] {
        return None;
      }
      w := Some(queue[0]);
      queue := queue[1..];
    }

    method RequeueInFlight(w: W)
      requires Valid()
      modifies this
      ensures Valid() && Abstract() == Requeue(old(Abstract()), capacity, w)
    {
      if capacity == 0 {
        RecordDrop();
        lost := lost + [w];
        return;
      }
      if |queue| >= capacity {
        lost := lost + [queue[|queue| - 1]];
        queue := queue[..|queue| - 1];
        RecordDrop();
      }
      queue := [w] + queue;
    }

    /** Run at most `limit` completions, oldest first. Nothing is parked meanwhile and nothing is cancelled. */
    method DrainSome(limit: nat) returns (completed: nat, ghost ran: seq<W>)
      requires Valid()
      modifies this
      ensures Valid() && lost == old(lost)
      ensures ran + queue == old(queue) && completed == |ran|
      ensures completed == if limit < |old(queue)| then limit else |old(queue)|
    {
      completed, ran := 0, [];
      while completed < limit
        invariant Valid() && lost == old(lost) && ran + queue == old(queue) && completed == |ran| <= limit
      {
        var w := TakeOne();
        if w.None? {
          break;
        }
        ran := ran + [w.value];
        completed := completed + 1;
      }
    }

    /** Run everything: the loop ends with an empty queue. */
    method Drain() returns (total: nat, ghost ran: seq<W>)
      requires Valid()
      modifies this
      ensures Valid() && lost == old(lost)
      ensures queue == [] && ran == old(queue) && total == |ran|
    {
      total, ran := 0, [];
      while true
        invariant Valid() && lost == old(lost) && ran + queue == old(queue) && total == |ran|
        decreases |queue|
      {
        var some, chunk := DrainSome(if capacity > 1 then capacity else 1);
        assert ran + (chunk + queue) == (ran + chunk) + queue;
        ran := ran + chunk;
        if some == 0 {
          return;
        }
        total := total + some;
      }
    }
  }

  // ---------------------------------------------------------------- every interleaving

  /** `parked` and `completed` are history; `inFlight` is work taken by drains that are still running. */
  datatype World<W> = World(d: Deferred<W>, inFlight: seq<W>, completed: seq<W>, parked: seq<W>)

  datatype Step<W> = ParkStep(work: W) | Take | Complete(index: nat) | Cancel(index: nat) | Panic(index: nat)

  predicate Enabled<W>(w: World<W>, step: Step<W>) {
    match step
    case ParkStep(_) => true
    case Take => w.d.queue != []
    case Complete(i) => i < |w.inFlight|
    case Cancel(i) => i < |w.inFlight|
    case Panic(i) => i < |w.inFlight|
  }

  function Without<W>(s: seq<W>, i: nat): seq<W>
    requires i < |s|
  {
    s[..i] + s[i + 1..]
  }

  function Apply<W>(capacity: nat, w: World<W>, step: Step<W>): World<W>
    requires Enabled(w, step)
  {
    match step
    case ParkStep(work) => w.(d := Park(w.d, capacity, work), parked := w.parked + [work])
    case Take => w.(d := w.d.(queue := w.d.queue[1..]), inFlight := w.inFlight + [w.d.queue[0]])
    case Complete(i) => w.(inFlight := Without(w.inFlight, i), completed := w.completed + [w.inFlight[i]])
    case Cancel(i) => w.(inFlight := Without(w.inFlight, i), d := Requeue(w.d, capacity, w.inFlight[i]))
    case Panic(i) => w.(inFlight := Without(w.inFlight, i), d := w.d.(lost := w.d.lost + [w.inFlight[i]]))
  }

  function Run<W>(capacity: nat, steps: seq<Step<W>>): Option<World<W>> {
    if steps == [] then Some(World(Deferred([], []), [], [], []))
    else
      var before := Run(capacity, steps[..|steps| - 1]);
      if before.Some? && Enabled(before.value, steps[|steps| - 1]) then
        Some(Apply(capacity, before.value, steps[|steps| - 1]))
      else None
  }

  function Times<W(==)>(s: seq<W>, x: W): nat {
    multiset(s)[x]
  }

  lemma TimesWithout<W>(s: seq<W>, i: nat, x: W)
    requires i < |s|
    ensures Times(s, x) == Times(Without(s, i), x) + if s[i] == x then 1 else 0
  {
    assert s == s[..i] + [s[i]] + s[i + 1..];
  }

  lemma ParkCounts<W>(d: Deferred<W>, capacity: nat, w: W, x: W)
    requires |d.queue| <= capacity
    ensures var p := Park(d, capacity, w);
            Times(p.queue, x) + Times(p.lost, x) == Times(d.queue, x) + Times(d.lost, x) + if w == x then 1 else 0
  {
    if d.queue != [] {
      assert d.queue == [d.queue[0]] + d.queue[1..];
    }
  }

  lemma RequeueCounts<W>(d: Deferred<W>, capacity: nat, w: W, x: W)
    requires |d.queue| <= capacity
    ensures var p := Requeue(d, capacity, w);
            Times(p.queue, x) + Times(p.lost, x) == Times(d.queue, x) + Times(d.lost, x) + if w == x then 1 else 0
  {
    if d.queue != [] {
      assert d.queue == d.queue[..|d.queue| - 1] + [d.queue[|d.queue| - 1]];
    }
  }

  predicate Accounted<W(==)>(capacity: nat, w: World<W>, x: W) {
    && |w.d.queue| <= capacity
    && Times(w.parked, x) == Times(w.completed, x) + Times(w.d.queue, x) + Times(w.inFlight, x) + Times(w.d.lost, x)
  }

  lemma AccountedStep<W>(capacity: nat, w: World<W>, step: Step<W>, x: W)
    requires Accounted(capacity, w, x) && Enabled(w, step)
    ensures Accounted(capacity, Apply(capacity, w, step), x)
  {
    match step
    case ParkStep(work) => ParkCounts(w.d, capacity, work, x);
    case Take => assert w.d.queue == [w.d.queue[0]] + w.d.queue[1..];
    case Complete(i) => TimesWithout(w.inFlight, i, x);
    case Cancel(i) =>
      TimesWithout(w.inFlight, i, x);
      RequeueCounts(w.d, capacity, w.inFlight[i], x);
    case Panic(i) => TimesWithout(w.inFlight, i, x);
  }

  /** Everything parked is completed, queued, in flight or counted as dropped, and the queue stays within its bound. */
  lemma {:induction false} WorkIsConserved<W>(capacity: nat, steps: seq<Step<W>>, x: W)
    requires Run(capacity, steps).Some?
    ensures var w := Run(capacity, steps).value;
            && |w.d.queue| <= capacity
            && Times(w.parked, x)
                 == Times(w.completed, x) + Times(w.d.queue, x) + Times(w.inFlight, x) + Times(w.d.lost, x)
  {
    if steps != [] {
      var n := |steps| - 1;
      WorkIsConserved(capacity, steps[..n], x);
      AccountedStep(capacity, Run(capacity, steps[..n]).value, steps[n], x);
    }
  }

  /** A run that goes on from a given world. */
  function Continue<W>(capacity: nat, w: World<W>, steps: seq<Step<W>>): Option<World<W>> {
    if steps == [] then Some(w)
    else
      var before := Continue(capacity, w, steps[..|steps| - 1]);
      if before.Some? && Enabled(before.value, steps[|steps| - 1]) then
        Some(Apply(capacity, before.value, steps[|steps| - 1]))
      else None
  }

  function Takes<W>(steps: seq<Step<W>>): nat {
    if steps == [] then 0 else Takes(steps[..|steps| - 1]) + if steps[|steps| - 1].Take? then 1 else 0
  }

  /** Steps that can put work into the queue. */
  function Refills<W>(steps: seq<Step<W>>): nat {
    if steps == [] then 0
    else
      var last := steps[|steps| - 1];
      Refills(steps[..|steps| - 1]) + if last.ParkStep? || last.Cancel? then 1 else 0
  }

  /** However drains interleave with parking, cancellation and panic, they take no more than was queued and came in;
      so with nothing parked and nothing cancelled, every drain ends. */
  lemma {:induction false} DrainsEnd<W>(capacity: nat, w: World<W>, steps: seq<Step<W>>)
    requires Continue(capacity, w, steps).Some?
    ensures |Continue(capacity, w, steps).value.d.queue| + Takes(steps) <= |w.d.queue| + Refills(steps)
  {
    if steps != [] {
      var n := |steps| - 1;
      DrainsEnd(capacity, w, steps[..n]);
      var before := Continue(capacity, w, steps[..n]).value;
      QueueGrowsByOne(capacity, before, steps[n]);
    }
  }

  lemma QueueGrowsByOne<W>(capacity: nat, w: World<W>, step: Step<W>)
    requires Enabled(w, step)
    ensures |Apply(capacity, w, step).d.queue| + (if step.Take? then 1 else 0)
            <= |w.d.queue| + if step.ParkStep? || step.Cancel? then 1 else 0
  {
  }

  /** One park discards at most one entry, the oldest, and only when the queue is full. */
  lemma ParkDiscardsAtMostOne<W>(d: Deferred<W>, capacity: nat, w: W)
    requires |d.queue| <= capacity
    ensures var p := Park(d, capacity, w);
            && d.lost <= p.lost && |p.lost| <= |d.lost| + 1
            && (|p.lost| > |d.lost| <==> |d.queue| == capacity)
            && (capacity > 0 ==> p.queue != [] && p.queue[|p.queue| - 1] == w)
            && d.queue + [w] == p.lost[|d.lost|..] + p.queue
  {
  }

  /** What the answer of a park means. It says whether nothing was discarded; that is whether the new work is now
      queued, except when a full queue with room for anything made way for it. */
  lemma ParkAnswerExactly<W>(d: Deferred<W>, capacity: nat, w: W)
    requires |d.queue| <= capacity
    ensures var p := Park(d, capacity, w);
            && (w in p.queue <==> capacity > 0)
            && ((p.lost == d.lost <==> w in p.queue) <==> |d.queue| < capacity || capacity == 0)
  {
    var p := Park(d, capacity, w);
    assert capacity > 0 ==> p.queue[|p.queue| - 1] == w;
  }

  /** A cancelled drain's work goes back to the front, so it is the next to run; the rest keeps its order, and a full
      queue gives up exactly its newest entry for it. */
  lemma CancelledWorkRunsNext<W>(d: Deferred<W>, capacity: nat, w: W)
    requires |d.queue| <= capacity
    ensures var p := Requeue(d, capacity, w);
            && |p.queue| <= capacity
            && [w] + d.queue == p.queue + p.lost[|d.lost|..]
            && d.lost <= p.lost && |p.lost| <= |d.lost| + 1
            && (|p.lost| > |d.lost| <==> |d.queue| == capacity)
            && (capacity > 0 ==> p.queue != [] && p.queue[0] == w)
  {
    if capacity > 0 && |d.queue| == capacity {
      assert d.queue == d.queue[..|d.queue| - 1] + [d.queue[|d.queue| - 1]];
    }
  }
}
