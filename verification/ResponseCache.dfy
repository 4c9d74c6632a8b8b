/** The response cache: every hit is the newest response its caller may see. */
module ResponseCache {
  import opened Prelude

  /** One call that stored something: who stored it, where it landed, and until when it may be served. */
  datatype Insertion<R> = Insertion(logical: nat, context: string, shared: bool, response: R, expiresAt: nat,
                                    insertedAt: nat)

  datatype CacheKey = CacheKey(logical: nat, privateTenant: Option<string>)

  datatype Entry<R> = Entry(response: R, expiresAt: nat, insertedAt: nat)

  type Entries<R> = map<CacheKey, Entry<R>>

  function KeyOf<R>(i: Insertion<R>): CacheKey {
    CacheKey(i.logical, if i.shared then None else Some(i.context))
  }

  function EntryOf<R>(i: Insertion<R>): Entry<R> {
    Entry(i.response, i.expiresAt, i.insertedAt)
  }

  function Private(logical: nat, context: string): CacheKey {
    CacheKey(logical, Some(context))
  }

  function Public(logical: nat): CacheKey {
    CacheKey(logical, None)
  }

  // ---------------------------------------------------------------- what a caller is entitled to

  function Newest<R>(log: seq<Insertion<R>>, logical: nat): Option<Insertion<R>> {
    if log == [] then None
    else
      var last := log[|log| - 1];
      if last.logical == logical then Some(last) else Newest(log[..|log| - 1], logical)
  }

  /** The newest insertion under a logical key that a context may see: a shared one, or one of its own. */
  function NewestVisible<R>(log: seq<Insertion<R>>, logical: nat, context: string): Option<Insertion<R>> {
    if log == [] then None
    else
      var last := log[|log| - 1];
      if last.logical == logical && (last.shared || last.context == context) then Some(last)
      else NewestVisible(log[..|log| - 1], logical, context)
  }

  lemma {:induction false} NewestSharedIsVisible<R>(log: seq<Insertion<R>>, logical: nat, context: string)
    requires Newest(log, logical).Some? && Newest(log, logical).value.shared
    ensures NewestVisible(log, logical, context) == Newest(log, logical)
  {
    if log[|log| - 1].logical != logical {
      NewestSharedIsVisible(log[..|log| - 1], logical, context);
    }
  }

  lemma {:induction false} NewestVisibleIsOwnOrShared<R>(log: seq<Insertion<R>>, logical: nat, context: string)
    requires NewestVisible(log, logical, context).Some?
    ensures var i := NewestVisible(log, logical, context).value;
            i in log && i.logical == logical
            && (i.shared || i.context == context)
  {
    var last := log[|log| - 1];
    if !(last.logical == logical && (last.shared || last.context == context)) {
      NewestVisibleIsOwnOrShared(log[..|log| - 1], logical, context);
    }
  }

  /** The insertion an entry under this key must come from: a shared one nothing has followed, or the newest its
      context may see. */
  function Backing<R>(log: seq<Insertion<R>>, key: CacheKey): Option<Insertion<R>> {
    if key.privateTenant.Some? then NewestVisible(log, key.logical, key.privateTenant.value)
        else Newest(log, key.logical)
  }

  ghost predicate Backs<R>(log: seq<Insertion<R>>, key: CacheKey, entry: Entry<R>) {
    var i := Backing(log, key);
    i.Some? && KeyOf(i.value) == key && EntryOf(i.value) == entry
  }

  ghost predicate Backed<R>(entries: Entries<R>, log: seq<Insertion<R>>) {
    forall k | k in entries :: Backs(log, k, entries[k])
  }

  /** A shared and a private entry of one logical key never coexist, so the order in which a lookup probes them is
      irrelevant. */
  lemma OneScopeAtATime<R>(entries: Entries<R>, log: seq<Insertion<R>>, logical: nat, context: string)
    requires Backed(entries, log)
    ensures Private(logical, context) !in entries || Public(logical) !in entries
  {
    if Public(logical) in entries {
      assert Backs(log, Public(logical), entries[Public(logical)]);
      NewestSharedIsVisible(log, logical, context);
      assert Private(logical, context) in entries
             ==> Backs(log, Private(logical, context), entries[Private(logical, context)]);
    }
  }

  /** What either probe finds is the newest response the caller may see. */
  lemma ProbesFindTheNewest<R>(entries: Entries<R>, log: seq<Insertion<R>>, logical: nat, context: string,
                               key: CacheKey)
    requires Backed(entries, log) && key in entries
    requires key == Private(logical, context) || key == Public(logical)
    ensures NewestVisible(log, logical, context).Some?
            && EntryOf(NewestVisible(log, logical, context).value) == entries[key]
  {
    assert Backs(log, key, entries[key]);
    if key == Public(logical) {
      NewestSharedIsVisible(log, logical, context);
    }
  }

  predicate Serves<R>(entries: Entries<R>, key: CacheKey, now: nat) {
    key in entries && entries[key].expiresAt > now
  }

  /** A response is the newest one the caller may see, and has not expired. */
  ghost predicate Entitled<R>(log: seq<Insertion<R>>, logical: nat, context: string, now: nat, response: R) {
    var i := NewestVisible(log, logical, context);
    i.Some? && i.value.response == response && i.value.expiresAt > now
  }

  /** Whatever a lookup can serve, from either key, its caller is entitled to; without shared insertions it is the
      caller's own. */
  lemma ServedIsEntitled<R>(entries: Entries<R>, log: seq<Insertion<R>>, logical: nat, context: string, now: nat)
    requires Backed(entries, log)
    ensures forall k | k == Private(logical, context) || k == Public(logical) ::
              Serves(entries, k, now) ==> Entitled(log, logical, context, now, entries[k].response)
    ensures NewestVisible(log, logical, context).Some? && (forall i | i in log :: !i.shared) ==>
              NewestVisible(log, logical, context).value.context == context
  {
    forall k | (k == Private(logical, context) || k == Public(logical)) && Serves(entries, k, now)
      ensures Entitled(log, logical, context, now, entries[k].response)
    {
      ProbesFindTheNewest(entries, log, logical, context, k);
    }
    if NewestVisible(log, logical, context).Some? {
      NewestVisibleIsOwnOrShared(log, logical, context);
    }
  }

  // ---------------------------------------------------------------- one insertion, in the order of the source

  function Unexpired<R>(entries: Entries<R>, now: nat): (live: Entries<R>)
    ensures live.Keys <= entries.Keys
  {
    map k | k in entries && entries[k].expiresAt > now :: entries[k]
  }

  /** Expiry is swept only when the cache is full. */
  function Swept<R>(entries: Entries<R>, capacity: nat, now: nat): Entries<R> {
    if |entries| >= capacity then Unexpired(entries, now) else entries
  }

  /** A shared representation supersedes every private one of its logical key; a private one supersedes the shared
      one. */
  function Superseded<R>(entries: Entries<R>, i: Insertion<R>): Entries<R> {
    if i.shared then map k | k in entries && (k.logical != i.logical || k.privateTenant.None?) :: entries[k]
    else entries - {Public(i.logical)}
  }

  predicate Crowded<R>(entries: Entries<R>, capacity: nat, i: Insertion<R>) {
    KeyOf(i) !in entries && |entries| >= capacity
  }

  predicate Oldest<R>(entries: Entries<R>, key: CacheKey) {
    key in entries && forall k | k in entries :: entries[key].insertedAt <= entries[k].insertedAt
  }

  /** The cache after an insertion that gave up `victims`: nobody, or the oldest of a crowded cache. */
  function Put<R>(entries: Entries<R>, capacity: nat, i: Insertion<R>, victims: set<CacheKey>): Entries<R> {
    (Superseded(Swept(entries, capacity, i.insertedAt), i) - victims)[KeyOf(i) := EntryOf(i)]
  }

  /** Whoever is given up, every entry left is still the newest its key's readers may see. */
  lemma PutKeepsBacking<R>(entries: Entries<R>, log: seq<Insertion<R>>, capacity: nat, i: Insertion<R>,
                           victims: set<CacheKey>)
    requires Backed(entries, log)
    ensures Backed(Put(entries, capacity, i, victims), log + [i])
  {
    var log' := log + [i];
    assert log'[..|log|] == log;
    var after := Put(entries, capacity, i, victims);
    forall k | k in after ensures Backs(log', k, after[k]) {
      if k != KeyOf(i) {
        assert k in entries && after[k] == entries[k];
        assert Backs(log, k, entries[k]);
        assert k.logical != i.logical || (k.privateTenant.Some? && !i.shared && k.privateTenant != Some(i.context));
      }
    }
  }

  lemma SubmapIsNoLarger<K, V>(a: map<K, V>, b: map<K, V>)
    requires a.Keys <= b.Keys
    ensures |a| <= |b| && (|a| == |b| ==> a.Keys == b.Keys)
  {
    SubsetIsNoLarger(a.Keys, b.Keys);
    assert |a.Keys| == |a| && |b.Keys| == |b|;
  }

  lemma {:induction false} SubsetIsNoLarger<K>(a: set<K>, b: set<K>)
    requires a <= b
    ensures |a| <= |b| && (|a| == |b| ==> a == b)
  {
    assert b == a + (b - a);
  }

  /** What was just inserted is what its own context is served next, and every context if it is shared. */
  lemma PutServesTheNew<R>(entries: Entries<R>, log: seq<Insertion<R>>, capacity: nat, i: Insertion<R>,
                           victims: set<CacheKey>, context: string, now: nat)
    requires Backed(entries, log) && (i.shared || context == i.context) && now < i.expiresAt
    ensures var after := Put(entries, capacity, i, victims);
            && (Serves(after, Private(i.logical, context), now) || Serves(after, Public(i.logical), now))
            && NewestVisible(log + [i], i.logical, context) == Some(i)
  {
  }

  /** An entry leaves only if expired, superseded, or the oldest of a cache in which every one of `capacity` entries
      was live. */
  lemma LiveEntriesLeaveOnlyWhenAllAreLive<R>(entries: Entries<R>, capacity: nat, i: Insertion<R>,
                                              victims: set<CacheKey>, key: CacheKey)
    requires |entries| <= capacity
    requires var left := Superseded(Swept(entries, capacity, i.insertedAt), i);
             if Crowded(left, capacity, i) then exists v :: Oldest(left, v) && victims == {v} else victims == {}
    requires key in entries && key !in Put(entries, capacity, i, victims)
    ensures || entries[key].expiresAt <= i.insertedAt
            || (key.logical == i.logical && key.privateTenant.Some? == i.shared)
            || (&& |entries| == capacity && KeyOf(i) !in entries && Oldest(entries, key)
                && (forall k | k in entries :: entries[k].expiresAt > i.insertedAt)
                && (forall k | k in entries && k != key :: k in Put(entries, capacity, i, victims)))
  {
    var swept := Swept(entries, capacity, i.insertedAt);
    var left := Superseded(swept, i);
    if key in left {
      assert Crowded(left, capacity, i) && key in victims;
      SubmapIsNoLarger(left, swept);
      SubmapIsNoLarger(swept, entries);
      assert left.Keys == swept.Keys == entries.Keys;
      assert |entries| >= capacity;
      forall k | k in entries ensures entries[k].expiresAt > i.insertedAt && left[k] == entries[k] {
        assert k in Unexpired(entries, i.insertedAt);
      }
    }
  }

  lemma LeftFits<R>(entries: Entries<R>, capacity: nat, i: Insertion<R>)
    requires |entries| <= capacity
    ensures |Superseded(Swept(entries, capacity, i.insertedAt), i)| <= capacity
  {
    var swept := Swept(entries, capacity, i.insertedAt);
    SubmapIsNoLarger(swept, entries);
    SubmapIsNoLarger(Superseded(swept, i), swept);
  }

  /** Giving up one entry of a crowded cache makes room for the new one. */
  lemma PutFits<R>(entries: Entries<R>, capacity: nat, i: Insertion<R>, victims: set<CacheKey>)
    requires |entries| <= capacity && capacity > 0
    requires var left := Superseded(Swept(entries, capacity, i.insertedAt), i);
             if Crowded(left, capacity, i) then exists v :: v in left && victims == {v} else victims == {}
    ensures |Put(entries, capacity, i, victims)| <= capacity
  {
    LeftFits(entries, capacity, i);
    var left := Superseded(Swept(entries, capacity, i.insertedAt), i);
    AddKey(left - victims, KeyOf(i), EntryOf(i));
    if Crowded(left, capacity, i) {
      var v :| v in left && victims == {v};
      RemoveKey(left, v);
    } else {
      assert left - victims == left;
    }
  }

  lemma RemoveKey<K, V>(m: map<K, V>, key: K)
    requires key in m
    ensures |m - {key}| == |m| - 1
  {
    assert m.Keys == (m - {key}).Keys + {key};
    assert |(m - {key}).Keys| == |m - {key}| && |m.Keys| == |m|;
  }

  lemma AddKey<K, V>(m: map<K, V>, key: K, value: V)
    ensures |m[key := value]| == if key in m then |m| else |m| + 1
  {
    assert m[key := value].Keys == m.Keys + {key};
    assert |m[key := value].Keys| == |m[key := value]| && |m.Keys| == |m|;
  }

  /** `min_by_key` over the entries, in whatever order the map yields them. */
  method FindOldest<R>(entries: Entries<R>) returns (oldest: CacheKey)
    requires entries != map[]
    ensures Oldest(entries, oldest)
  {
    oldest :| oldest in entries;
    var rest := entries.Keys - {oldest};
    while rest != {}
      invariant rest <= entries.Keys && oldest in entries
      invariant forall k | k in entries && k !in rest :: entries[oldest].insertedAt <= entries[k].insertedAt
      decreases |rest|
    {
      var k :| k in rest;
      if entries[k].insertedAt < entries[oldest].insertedAt {
        oldest := k;
      }
      rest := rest - {k};
    }
  }

  // ---------------------------------------------------------------- what the callers asked for

  /** The arguments of one insertion that was stored. */
  datatype Call<R> = Call(logical: nat, context: string, public: bool, ttl: nat, response: R, now: nat)

  /** The insertion does what the call asked: it is shared only if declared public where sharing is on, and ends with
      the shorter of the two lifetimes. */
  ghost predicate Faithful<R>(call: Call<R>, i: Insertion<R>, maxTtl: nat, sharePublic: bool) {
    && i.logical == call.logical && i.context == call.context && i.response == call.response
    && i.insertedAt == call.now
    && (i.shared <==> call.public && sharePublic)
    && i.expiresAt <= call.now + call.ttl && i.expiresAt <= call.now + maxTtl
    && (i.expiresAt == call.now + call.ttl || i.expiresAt == call.now + maxTtl)
  }

  ghost predicate AllFaithful<R>(calls: seq<Call<R>>, log: seq<Insertion<R>>, maxTtl: nat, sharePublic: bool) {
    |calls| == |log| && forall n | 0 <= n < |log| :: Faithful(calls[n], log[n], maxTtl, sharePublic)
  }

  /** A context may see its own calls, and those declared public where sharing is on. */
  predicate MaySee<R>(call: Call<R>, sharePublic: bool, logical: nat, context: string) {
    call.logical == logical && (call.context == context || (call.public && sharePublic))
  }

  /** The `n`th call asked for this response, the context may see it and nothing newer, and its time is not over. */
  ghost predicate AskedFor<R>(calls: seq<Call<R>>, maxTtl: nat, sharePublic: bool, logical: nat, context: string,
                              now: nat,
                              response: R, n: nat)
  {
    && n < |calls| && MaySee(calls[n], sharePublic, logical, context) && calls[n].response == response
    && now < calls[n].now + calls[n].ttl && now < calls[n].now + maxTtl
    && (forall m | n < m < |calls| :: !MaySee(calls[m], sharePublic, logical, context))
  }

  lemma {:induction false} NewestVisibleAt<R>(log: seq<Insertion<R>>, logical: nat, context: string)
    requires NewestVisible(log, logical, context).Some?
    ensures exists n | 0 <= n < |log| ::
              && log[n] == NewestVisible(log, logical, context).value
              && log[n].logical == logical && (log[n].shared || log[n].context == context)
              && forall m | n < m < |log| ::
                   !(log[m].logical == logical && (log[m].shared || log[m].context == context))
  {
    var k := |log| - 1;
    if log[k].logical == logical && (log[k].shared || log[k].context == context) {
      assert log[k] == NewestVisible(log, logical, context).value;
    } else {
      NewestVisibleAt(log[..k], logical, context);
      var n :| 0 <= n < k
               && log[..k][n] == NewestVisible(log[..k], logical, context).value
               && log[..k][n].logical == logical && (log[..k][n].shared || log[..k][n].context == context)
               && forall m | n < m < k ::
                    !(log[..k][m].logical == logical && (log[..k][m].shared || log[..k][m].context == context));
      forall m | n < m < |log| ensures !(log[m].logical == logical && (log[m].shared || log[m].context == context)) {
        if m < k {
          assert log[..k][m] == log[m];
        }
      }
      assert log[n] == log[..k][n];
    }
  }

  /** So whatever a context is served, some call asked for: never another context's private call, never after its own
      time to live, and never past a newer call the context may see. */
  lemma ServedWasAskedFor<R>(calls: seq<Call<R>>, log: seq<Insertion<R>>, maxTtl: nat, sharePublic: bool,
                             logical: nat, context: string, now: nat, response: R)
    requires AllFaithful(calls, log, maxTtl, sharePublic) && Entitled(log, logical, context, now, response)
    ensures exists n :: AskedFor(calls, maxTtl, sharePublic, logical, context, now, response, n)
  {
    NewestVisibleAt(log, logical, context);
    var n :| 0 <= n < |log|
             && log[n] == NewestVisible(log, logical, context).value
             && log[n].logical == logical && (log[n].shared || log[n].context == context)
             && forall m | n < m < |log| ::
                  !(log[m].logical == logical && (log[m].shared || log[m].context == context));
    assert Faithful(calls[n], log[n], maxTtl, sharePublic);
    forall m | n < m < |calls| ensures !MaySee(calls[m], sharePublic, logical, context) {
      assert Faithful(calls[m], log[m], maxTtl, sharePublic);
    }
    assert AskedFor(calls, maxTtl, sharePublic, logical, context, now, response, n);
  }

  /** A cache within its bound, in which everything stored is what its readers may see and some call asked for. */
  ghost predicate Sound<R>(entries: Entries<R>, log: seq<Insertion<R>>, calls: seq<Call<R>>,
                           maxEntries: nat, maxTtl: nat, sharePublic: bool)
  {
    && |entries| <= maxEntries
    && Backed(entries, log)
    && AllFaithful(calls, log, maxTtl, sharePublic)
    && (!sharePublic ==> forall i | i in log :: !i.shared)
  }

  ghost predicate WasAskedFor<R>(calls: seq<Call<R>>, maxTtl: nat, sharePublic: bool, logical: nat, context: string,
                                 now: nat, response: R)
  {
    exists n :: AskedFor(calls, maxTtl, sharePublic, logical, context, now, response, n)
  }

  /** Whatever a sound cache serves from either key, a call asked for; with sharing off it is the context's own. */
  lemma ServedIsSound<R>(entries: Entries<R>, log: seq<Insertion<R>>, calls: seq<Call<R>>, maxEntries: nat, maxTtl: nat,
                         sharePublic: bool, logical: nat, context: string, now: nat)
    requires Sound(entries, log, calls, maxEntries, maxTtl, sharePublic)
    ensures forall k | k == Private(logical, context) || k == Public(logical) ::
              Serves(entries, k, now) ==>
                && WasAskedFor(calls, maxTtl, sharePublic, logical, context, now, entries[k].response)
                && Entitled(log, logical, context, now, entries[k].response)
                && (!sharePublic ==> NewestVisible(log, logical, context).value.context == context)
  {
    ServedIsEntitled(entries, log, logical, context, now);
    forall k | (k == Private(logical, context) || k == Public(logical)) && Serves(entries, k, now)
      ensures WasAskedFor(calls, maxTtl, sharePublic, logical, context, now, entries[k].response)
    {
      ServedWasAskedFor(calls, log, maxTtl, sharePublic, logical, context, now, entries[k].response);
    }
  }

  lemma PutKeepsSound<R>(entries: Entries<R>, log: seq<Insertion<R>>, calls: seq<Call<R>>, call: Call<R>,
                         i: Insertion<R>,
                         victims: set<CacheKey>, maxEntries: nat, maxTtl: nat, sharePublic: bool)
    requires Sound(entries, log, calls, maxEntries, maxTtl, sharePublic) && Faithful(call, i, maxTtl, sharePublic)
    requires maxEntries > 0
    requires var left := Superseded(Swept(entries, maxEntries, i.insertedAt), i);
             if Crowded(left, maxEntries, i) then exists v :: v in left && victims == {v} else victims == {}
    ensures Sound(Put(entries, maxEntries, i, victims), log + [i], calls + [call], maxEntries, maxTtl, sharePublic)
  {
    PutKeepsBacking(entries, log, maxEntries, i, victims);
    PutFits(entries, maxEntries, i, victims);
  }

  lemma NothingToRemove<K, V>(m: map<K, V>, key: K)
    ensures key !in m ==> m - {key} == m
  {
  }

  /** Dropping an entry keeps a cache sound. */
  lemma DroppingKeepsSound<R>(entries: Entries<R>, log: seq<Insertion<R>>, calls: seq<Call<R>>, key: CacheKey,
                              maxEntries: nat, maxTtl: nat, sharePublic: bool)
    requires Sound(entries, log, calls, maxEntries, maxTtl, sharePublic)
    ensures Sound(entries - {key}, log, calls, maxEntries, maxTtl, sharePublic)
  {
    SubmapIsNoLarger(entries - {key}, entries);
  }

  class ResponseCache<R(0)> {
    const maxEntries: nat
    const maxTtl: nat
    const sharePublic: bool
    /** The last instant the clock can represent. */
    const lastInstant: nat
    var entries: Entries<R>
    ghost var log: seq<Insertion<R>>
    ghost var calls: seq<Call<R>>

    ghost predicate Valid()
      reads this
    {
      Sound(entries, log, calls, maxEntries, maxTtl, sharePublic)
    }

    constructor (maxEntries: nat, maxTtl: nat, sharePublic: bool, lastInstant: nat)
      ensures Valid() && log == [] && calls == [] && entries == map[]
      ensures this.maxEntries == maxEntries && this.maxTtl == maxTtl && this.sharePublic == sharePublic
              && this.lastInstant == lastInstant
    {
      this.maxEntries, this.maxTtl, this.sharePublic, this.lastInstant := maxEntries, maxTtl, sharePublic, lastInstant;
      entries, log, calls := map[], [], [];
    }

    /** A hit is what the newest call the context may see asked for, in its time; a miss leaves neither key behind. */
    method Get(logical: nat, context: string, now: nat) returns (response: Option<R>)
      requires Valid()
      modifies this`entries
      ensures Valid()
      ensures response.Some? ==> WasAskedFor(calls, maxTtl, sharePublic, logical, context, now, response.value)
      ensures response.Some? ==>
                && Entitled(log, logical, context, now, response.value)
                && (!sharePublic ==> NewestVisible(log, logical, context).value.context == context)
      ensures response.Some?
              <==> Serves(old(entries), Private(logical, context), now) || Serves(old(entries), Public(logical), now)
      ensures entries == if response.Some? then old(entries)
              else old(entries) - {Private(logical, context)} - {Public(logical)}
    {
      OneScopeAtATime(entries, log, logical, context);
      var private, public := Private(logical, context), Public(logical);
      ServedIsSound(entries, log, calls, maxEntries, maxTtl, sharePublic, logical, context, now);
      response := Probe(private, now);
      if response.None? {
        NothingToRemove(old(entries), private);
        response := Probe(public, now);
      }
    }

    /** One of the two keys a lookup examines; what it finds expired it drops. */
    method Probe(key: CacheKey, now: nat) returns (response: Option<R>)
      requires Valid()
      modifies this`entries
      ensures Valid()
      ensures if key in old(entries) && old(entries)[key].expiresAt > now
              then response == Some(old(entries)[key].response) && entries == old(entries)
              else response.None? && entries == old(entries) - {key}
    {
      response := None;
      if key in entries {
        if entries[key].expiresAt > now {
          response := Some(entries[key].response);
        } else {
          DroppingKeepsSound(entries, log, calls, key, maxEntries, maxTtl, sharePublic);
          entries := entries - {key};
        }
      }
    }

    /** The call, as recorded: a public result is shared only where sharing is on, for at most the configured time. */
    function Effective(logical: nat, context: string, public: bool, ttl: nat, response: R,
                       now: nat): (i: Option<Insertion<R>>)
      ensures i.Some? <==> Stores(ttl, now)
      ensures i.Some? ==> Faithful(Call(logical, context, public, ttl, response, now), i.value, maxTtl, sharePublic)
    {
      var bounded := if ttl < maxTtl then ttl else maxTtl;
      if bounded == 0 || maxEntries == 0 || now + bounded > lastInstant then None
      else Some(Insertion(logical, context, public && sharePublic, response, now + bounded, now))
    }

    /** Whether a call stores anything: it has some lifetime and room, and the clock can say when it ends. */
    predicate Stores(ttl: nat, now: nat) {
      ttl > 0 && maxTtl > 0 && maxEntries > 0 && (now + ttl <= lastInstant || now + maxTtl <= lastInstant)
    }

    /** `victims` names the entry given up for space, if there is one. */
    method InsertResponse(logical: nat, context: string, public: bool, ttl: nat, response: R, now: nat)
        returns (victims: set<CacheKey>)
      requires Valid()
      modifies this
      ensures Valid()
      ensures !Stores(ttl, now) ==>
                entries == old(entries) && log == old(log) && calls == old(calls) && victims == {}
      ensures Stores(ttl, now) ==>
                && calls == old(calls) + [Call(logical, context, public, ttl, response, now)]
                && |log| == |old(log)| + 1 && log == old(log) + [log[|old(log)|]]
                && var i := log[|old(log)|];
                   var left := Superseded(Swept(old(entries), maxEntries, now), i);
                   && entries == Put(old(entries), maxEntries, i, victims)
                   && if Crowded(left, maxEntries, i) then exists v :: Oldest(left, v) && victims == {v}
                      else victims == {}
    {
      victims := {};
      var e := Effective(logical, context, public, ttl, response, now);
      if e.None? {
        return;
      }
      var i := e.value;
      var left := Superseded(Swept(entries, maxEntries, now), i);
      if Crowded(left, maxEntries, i) {
        var oldest := FindOldest(left);
        victims := {oldest};
      }
      var call := Call(logical, context, public, ttl, response, now);
      PutKeepsSound(entries, log, calls, call, i, victims, maxEntries, maxTtl, sharePublic);
      entries := Put(entries, maxEntries, i, victims);
      log := log + [i];
      calls := calls + [call];
    }
  }
}
