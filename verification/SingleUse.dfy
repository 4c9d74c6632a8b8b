/** Verifications of payment credentials by any number of instances over one expiring store. */
module SingleUse {
  import opened Prelude
  import opened R = ReplayStore
  import Payments
  import ChronoLite

  // Time is one clock in milliseconds. A challenge is its identifier; `expiry` gives the Unix second it expires at.
  // `ttl` is the configured lifetime in milliseconds, `delay` the longest wait between passing the checks and the
  // reservation taking effect.
  datatype Config = Config(ttl: nat, delay: nat, expiry: map<nat, nat>)

  /** Where one verification stands. */
  datatype Attempt =
    | Checked(key: nat, at: nat)
    | Verifying(key: nat, owner: nat)
    | Rejected(key: nat, owner: nat)

  datatype Held = Held(key: nat, owner: nat, at: nat)

  datatype Settlement = Settlement(key: nat, owner: nat)

  /** `reserved`, `rejected` and `settled` are history. */
  datatype World = World(now: nat, store: map<nat, Entry>, attempts: map<nat, Attempt>, nextOwner: nat,
                         reserved: seq<Held>, rejected: set<nat>, settled: seq<Settlement>)

  datatype Step =
    | Tick(elapsed: nat)
    | Present(attempt: nat, key: nat)
    | ReserveStep(attempt: nat, replyLost: bool)
    | Settle(attempt: nat)
    | Reject(attempt: nat)
    | ReleaseStep(attempt: nat)
    | Crash(attempt: nat)

  const INITIAL := World(0, map[], map[], 0, [], {}, [])

  /** now <= expires <= now + ttl, in the whole seconds the timestamps carry. */
  predicate Accepts(cfg: Config, now: nat, key: nat) {
    key in cfg.expiry && now / 1000 <= cfg.expiry[key] <= now / 1000 + cfg.ttl / 1000
  }

  predicate Enabled(cfg: Config, w: World, step: Step) {
    match step
    case Tick(_) => true
    case Present(v, key) => v !in w.attempts && Accepts(cfg, w.now, key)
    case ReserveStep(v, _) => v in w.attempts && w.attempts[v].Checked? && w.now <= w.attempts[v].at + cfg.delay
    case Settle(v) => v in w.attempts && w.attempts[v].Verifying?
    case Reject(v) => v in w.attempts && w.attempts[v].Verifying?
    case ReleaseStep(v) => v in w.attempts && w.attempts[v].Rejected?
    case Crash(v) => v in w.attempts
  }

  function Apply(cfg: Config, w: World, step: Step): World
    requires Enabled(cfg, w, step)
  {
    match step
    case Tick(elapsed) => w.(now := w.now + elapsed)
    case Present(v, key) => w.(attempts := w.attempts[v := Checked(key, w.now)])
    case ReserveStep(v, replyLost) =>
      var key := w.attempts[v].key;
      var (store, reservation) := Reserve(w.store, key, 2 * cfg.ttl, w.now, w.nextOwner);
      if reservation.None? then w.(store := store, attempts := w.attempts - {v})
      else w.(store := store, nextOwner := w.nextOwner + 1, reserved := w.reserved + [Held(key, w.nextOwner, w.now)],
              attempts := if replyLost then w.attempts - {v} else w.attempts[v := Verifying(key, w.nextOwner)])
    case Settle(v) =>
      // The payment method settled. The reservation is kept, whether or not a receipt ever reaches the caller.
      w.(settled := w.settled + [Settlement(w.attempts[v].key, w.attempts[v].owner)], attempts := w.attempts - {v})
    case Reject(v) =>
      w.(rejected := w.rejected + {w.attempts[v].owner},
         attempts := w.attempts[v := Rejected(w.attempts[v].key, w.attempts[v].owner)])
    case ReleaseStep(v) =>
      // The attempt stays, so a release may be delayed without limit and repeated.
      w.(store := Release(w.store, Reservation(w.attempts[v].key, w.attempts[v].owner)))
    case Crash(v) => w.(attempts := w.attempts - {v})
  }

  function Run(cfg: Config, steps: seq<Step>): Option<World> {
    if steps == [] then Some(INITIAL)
    else
      var before := Run(cfg, steps[..|steps| - 1]);
      if before.Some? && Enabled(cfg, before.value, steps[|steps| - 1]) then
        Some(Apply(cfg, before.value, steps[|steps| - 1]))
      else None
  }

  /** The last moment an accepted challenge can still be reserved comes before its first reservation is forgotten. */
  predicate Margin(ttl: nat, delay: nat) {
    1000 * (ttl / 1000) + 999 + delay < 2 * ttl
  }

  predicate AtMostOnce(settled: seq<Settlement>) {
    forall i, j | 0 <= i < j < |settled| :: settled[i].key != settled[j].key
  }

  // ---------------------------------------------------------------- the invariant

  predicate AttemptSound(cfg: Config, w: World, a: Attempt) {
    match a
    case Checked(key, at) => at <= w.now && Accepts(cfg, at, key)
    case Verifying(key, owner) => HasHeld(w, key, owner) && owner !in w.rejected
    case Rejected(key, owner) => owner in w.rejected
  }

  predicate HasHeld(w: World, key: nat, owner: nat) {
    exists h | h in w.reserved :: h.key == key && h.owner == owner
  }

  /** A reservation that was not explicitly rejected is in the store until its retention is over. */
  predicate HeldSound(cfg: Config, w: World, h: Held) {
    && h.key in cfg.expiry && 1000 * cfg.expiry[h.key] <= h.at + 1000 * (cfg.ttl / 1000)
    && h.owner < w.nextOwner
    && (h.owner in w.rejected || h.at + 2 * cfg.ttl <= w.now
        || (h.key in w.store && w.store[h.key] == Entry(h.at + 2 * cfg.ttl, h.owner)))
  }

  /** Of two reservations of one challenge, the earlier was rejected. */
  predicate Successive(w: World) {
    forall i, j | 0 <= i < j < |w.reserved| ::
      w.reserved[i].owner != w.reserved[j].owner
      && (w.reserved[i].key == w.reserved[j].key ==> w.reserved[i].owner in w.rejected)
  }

  predicate SettledSound(w: World) {
    && (forall s | s in w.settled :: HasHeld(w, s.key, s.owner) && s.owner !in w.rejected)
    && (forall i, j | 0 <= i < j < |w.settled| :: w.settled[i].owner != w.settled[j].owner)
    && (forall s, v | s in w.settled && v in w.attempts && w.attempts[v].Verifying? :: w.attempts[v].owner != s.owner)
  }

  predicate OwnersSound(w: World) {
    && (forall v | v in w.attempts && !w.attempts[v].Checked? :: w.attempts[v].owner < w.nextOwner)
    && (forall u, v | u in w.attempts && v in w.attempts && u != v && w.attempts[u].Verifying?
        && !w.attempts[v].Checked? ::
          w.attempts[u].owner != w.attempts[v].owner)
    && (forall o | o in w.rejected :: o < w.nextOwner)
  }

  predicate Sound(cfg: Config, w: World) {
    && (forall v | v in w.attempts :: AttemptSound(cfg, w, w.attempts[v]))
    && (forall h | h in w.reserved :: HeldSound(cfg, w, h))
    && Successive(w)
    && SettledSound(w)
    && OwnersSound(w)
  }

  /** The timing argument: a challenge accepted for an attempt cannot outlive an earlier reservation of it. */
  lemma StillRetained(cfg: Config, h: Held, at: nat, now: nat)
    requires Margin(cfg.ttl, cfg.delay) && Accepts(cfg, at, h.key) && now <= at + cfg.delay
    requires 1000 * cfg.expiry[h.key] <= h.at + 1000 * (cfg.ttl / 1000)
    ensures now < h.at + 2 * cfg.ttl
  {
    assert at <= 1000 * (at / 1000) + 999;
  }

  /** A reservation succeeds only when every earlier one of its challenge was rejected. */
  lemma EarlierWereRejected(cfg: Config, w: World, v: nat, h: Held)
    requires Margin(cfg.ttl, cfg.delay) && Sound(cfg, w) && Enabled(cfg, w, ReserveStep(v, false)) && h in w.reserved
    requires h.key == w.attempts[v].key && h.key !in Live(w.store, w.now)
    ensures h.owner in w.rejected
  {
    assert AttemptSound(cfg, w, w.attempts[v]);
    assert HeldSound(cfg, w, h);
    StillRetained(cfg, h, w.attempts[v].at, w.now);
  }

  lemma ReserveKeepsHeld(cfg: Config, w: World, v: nat, replyLost: bool)
    requires Margin(cfg.ttl, cfg.delay) && Sound(cfg, w) && Enabled(cfg, w, ReserveStep(v, replyLost))
    ensures var w' := Apply(cfg, w, ReserveStep(v, replyLost)); forall h | h in w'.reserved :: HeldSound(cfg, w', h)
  {
    var w' := Apply(cfg, w, ReserveStep(v, replyLost));
    assert AttemptSound(cfg, w, w.attempts[v]);
    assert 1000 * (w.attempts[v].at / 1000) <= w.attempts[v].at;
    forall h | h in w.reserved ensures HeldSound(cfg, w', h) {
      assert HeldSound(cfg, w, h);
      if h.key == w.attempts[v].key && h.key !in Live(w.store, w.now) {
        EarlierWereRejected(cfg, w, v, h);
      }
    }
  }

  lemma ReserveKeepsAttempts(cfg: Config, w: World, v: nat, replyLost: bool)
    requires Sound(cfg, w) && Enabled(cfg, w, ReserveStep(v, replyLost))
    ensures var w' := Apply(cfg, w, ReserveStep(v, replyLost));
            forall u | u in w'.attempts :: AttemptSound(cfg, w', w'.attempts[u])
  {
    var w' := Apply(cfg, w, ReserveStep(v, replyLost));
    forall u | u in w'.attempts ensures AttemptSound(cfg, w', w'.attempts[u]) {
      if u != v {
        assert AttemptSound(cfg, w, w.attempts[u]);
        HeldStays(w, w', w.attempts[u]);
      } else {
        assert w'.reserved[|w.reserved|] in w'.reserved;
      }
    }
  }

  lemma ReserveKeepsSuccession(cfg: Config, w: World, v: nat, replyLost: bool)
    requires Margin(cfg.ttl, cfg.delay) && Sound(cfg, w) && Enabled(cfg, w, ReserveStep(v, replyLost))
    ensures Successive(Apply(cfg, w, ReserveStep(v, replyLost)))
  {
    var w' := Apply(cfg, w, ReserveStep(v, replyLost));
    if w'.reserved != w.reserved {
      var n := |w.reserved|;
      forall i, j | 0 <= i < j < |w'.reserved|
        ensures w'.reserved[i].owner != w'.reserved[j].owner
        ensures w'.reserved[i].key == w'.reserved[j].key ==> w'.reserved[i].owner in w'.rejected
      {
        assert w'.reserved[i] == w.reserved[i] && w.reserved[i] in w.reserved;
        assert HeldSound(cfg, w, w.reserved[i]);
        if j == n && w.reserved[i].key == w'.reserved[n].key {
          EarlierWereRejected(cfg, w, v, w.reserved[i]);
        }
      }
    }
  }

  lemma ReserveKeeps(cfg: Config, w: World, v: nat, replyLost: bool)
    requires Margin(cfg.ttl, cfg.delay) && Sound(cfg, w) && Enabled(cfg, w, ReserveStep(v, replyLost))
    ensures Sound(cfg, Apply(cfg, w, ReserveStep(v, replyLost)))
  {
    var w' := Apply(cfg, w, ReserveStep(v, replyLost));
    ReserveKeepsHeld(cfg, w, v, replyLost);
    ReserveKeepsAttempts(cfg, w, v, replyLost);
    ReserveKeepsSuccession(cfg, w, v, replyLost);
    SettledStays(cfg, w, w');
  }

  lemma HeldStays(w: World, w': World, a: Attempt)
    requires w.reserved <= w'.reserved && (a.Verifying? ==> HasHeld(w, a.key, a.owner))
    ensures a.Verifying? ==> HasHeld(w', a.key, a.owner)
  {
    if a.Verifying? {
      var h :| h in w.reserved && h.key == a.key && h.owner == a.owner;
      assert h in w'.reserved;
    }
  }

  lemma SettledStays(cfg: Config, w: World, w': World)
    requires SettledSound(w) && w.reserved <= w'.reserved && w'.settled == w.settled && w'.rejected == w.rejected
    requires forall v | v in w'.attempts && w'.attempts[v].Verifying? ::
               (v in w.attempts && w.attempts[v] == w'.attempts[v]) || w'.attempts[v].owner >= w.nextOwner
    requires forall h | h in w.reserved :: h.owner < w.nextOwner
    ensures SettledSound(w')
  {
    forall s | s in w.settled ensures HasHeld(w', s.key, s.owner) && s.owner < w.nextOwner {
      var h :| h in w.reserved && h.key == s.key && h.owner == s.owner;
      assert h in w'.reserved;
    }
  }

  lemma SoundStep(cfg: Config, w: World, step: Step)
    requires Margin(cfg.ttl, cfg.delay) && Sound(cfg, w) && Enabled(cfg, w, step)
    ensures Sound(cfg, Apply(cfg, w, step))
  {
    match step
    case ReserveStep(v, replyLost) => ReserveKeeps(cfg, w, v, replyLost);
    case Present(v, key) => OtherKeeps(cfg, w, step);
    case Tick(_) => OtherKeeps(cfg, w, step);
    case Settle(v) => OtherKeeps(cfg, w, step);
    case Reject(v) => OtherKeeps(cfg, w, step);
    case ReleaseStep(v) => OtherKeeps(cfg, w, step);
    case Crash(v) => OtherKeeps(cfg, w, step);
  }

  lemma OtherKeepsHeld(cfg: Config, w: World, step: Step)
    requires Sound(cfg, w) && Enabled(cfg, w, step) && !step.ReserveStep?
    ensures forall h | h in w.reserved :: HeldSound(cfg, Apply(cfg, w, step), h)
  {
    var w' := Apply(cfg, w, step);
    forall h | h in w.reserved ensures HeldSound(cfg, w', h) {
      assert HeldSound(cfg, w, h);
      if step.ReleaseStep? {
        assert AttemptSound(cfg, w, w.attempts[step.attempt]);
      }
    }
  }

  lemma OtherKeepsAttempts(cfg: Config, w: World, step: Step)
    requires Sound(cfg, w) && Enabled(cfg, w, step) && !step.ReserveStep?
    ensures var w' := Apply(cfg, w, step); forall v | v in w'.attempts :: AttemptSound(cfg, w', w'.attempts[v])
  {
    var w' := Apply(cfg, w, step);
    forall v | v in w'.attempts ensures AttemptSound(cfg, w', w'.attempts[v]) {
      if v in w.attempts {
        assert AttemptSound(cfg, w, w.attempts[v]);
      }
    }
  }

  lemma OtherKeeps(cfg: Config, w: World, step: Step)
    requires Sound(cfg, w) && Enabled(cfg, w, step) && !step.ReserveStep?
    ensures Sound(cfg, Apply(cfg, w, step))
  {
    OtherKeepsHeld(cfg, w, step);
    OtherKeepsAttempts(cfg, w, step);
    var w' := Apply(cfg, w, step);
    assert w'.reserved == w.reserved;
    assert Successive(w');
    assert SettledSound(w');
    assert OwnersSound(w');
  }

  lemma {:induction false} SoundRun(cfg: Config, steps: seq<Step>)
    requires Margin(cfg.ttl, cfg.delay) && Run(cfg, steps).Some?
    ensures Sound(cfg, Run(cfg, steps).value)
  {
    if steps != [] {
      SoundRun(cfg, steps[..|steps| - 1]);
      SoundStep(cfg, Run(cfg, steps[..|steps| - 1]).value, steps[|steps| - 1]);
    }
  }

  /** With enough margin, no interleaving, crash, lost reply or late release settles a challenge twice. */
  lemma SettlesAtMostOnce(cfg: Config, steps: seq<Step>)
    requires Margin(cfg.ttl, cfg.delay) && Run(cfg, steps).Some?
    ensures AtMostOnce(Run(cfg, steps).value.settled)
  {
    SoundRun(cfg, steps);
    var w := Run(cfg, steps).value;
    forall i, j | 0 <= i < j < |w.settled| ensures w.settled[i].key != w.settled[j].key {
      assert w.settled[i] in w.settled && w.settled[j] in w.settled;
      var g :| g in w.reserved && g.key == w.settled[i].key && g.owner == w.settled[i].owner;
      var h :| h in w.reserved && h.key == w.settled[j].key && h.owner == w.settled[j].owner;
      var m :| 0 <= m < |w.reserved| && w.reserved[m] == g;
      var n :| 0 <= n < |w.reserved| && w.reserved[n] == h;
      assert m != n;
    }
  }

  // After a payment was made and settled at time zero, and after the second attempt passed its checks at `last`.
  function Paid(cfg: Config): World {
    World(0, map[7 := Entry(2 * cfg.ttl, 0)], map[], 1, [Held(7, 0, 0)], {}, [Settlement(7, 0)])
  }

  function PaidAgain(cfg: Config, now: nat): World {
    World(now, map[7 := Entry(now + 2 * cfg.ttl, 1)], map[2 := Verifying(7, 1)], 2, [Held(7, 0, 0), Held(7, 1, now)],
          {}, [Settlement(7, 0)])
  }

  lemma PayOnce(cfg: Config) returns (steps: seq<Step>)
    requires cfg.expiry == map[7 := cfg.ttl / 1000]
    ensures Run(cfg, steps) == Some(Paid(cfg))
  {
    var checked := INITIAL.(attempts := map[1 := Checked(7, 0)]);
    var verifying := Paid(cfg).(attempts := map[1 := Verifying(7, 0)], settled := []);
    steps := Then(cfg, [], INITIAL, Present(1, 7), checked);
    assert Live<nat>(map[], 0) == map[];
    steps := Then(cfg, steps, checked, ReserveStep(1, false), verifying);
    steps := Then(cfg, steps, verifying, Settle(1), Paid(cfg));
  }

  lemma PayAgain(cfg: Config, last: nat, now: nat, paid: seq<Step>) returns (steps: seq<Step>)
    requires cfg.expiry == map[7 := cfg.ttl / 1000] && last / 1000 == cfg.ttl / 1000
    requires now == last + cfg.delay && now >= 2 * cfg.ttl
    requires Run(cfg, paid) == Some(Paid(cfg))
    ensures Run(cfg, steps) == Some(PaidAgain(cfg, now))
  {
    var waited := Paid(cfg).(now := last);
    var checked := waited.(attempts := map[2 := Checked(7, last)]);
    steps := Then(cfg, paid, Paid(cfg), Tick(last), waited);
    steps := Then(cfg, steps, waited, Present(2, 7), checked);
    steps := Then(cfg, steps, checked, Tick(cfg.delay), checked.(now := now));
    assert Live(checked.store, now) == map[];
    steps := Then(cfg, steps, checked.(now := now), ReserveStep(2, false), PaidAgain(cfg, now));
  }

  /** Without it, a slow reservation replays a settled payment. */
  lemma SlowReservationReplays(ttl: nat, delay: nat) returns (cfg: Config, steps: seq<Step>)
    requires ttl > 0 && !Margin(ttl, delay)
    ensures cfg.ttl == ttl && cfg.delay == delay && Run(cfg, steps).Some?
    ensures !AtMostOnce(Run(cfg, steps).value.settled)
  {
    cfg := Config(ttl, delay, map[7 := ttl / 1000]);
    var last := 1000 * (ttl / 1000) + 999;
    steps := PayOnce(cfg);
    steps := PayAgain(cfg, last, last + delay, steps);
    var again := PaidAgain(cfg, last + delay);
    var settled := again.(attempts := map[], settled := [Settlement(7, 0), Settlement(7, 1)]);
    steps := Then(cfg, steps, again, Settle(2), settled);
    assert settled.settled[0].key == settled.settled[1].key;
  }

  lemma Then(cfg: Config, steps: seq<Step>, w: World, step: Step, w': World) returns (longer: seq<Step>)
    requires Run(cfg, steps) == Some(w) && Enabled(cfg, w, step) && Apply(cfg, w, step) == w'
    ensures Run(cfg, longer) == Some(w')
  {
    longer := steps + [step];
    assert longer[..|longer| - 1] == steps;
  }

  /** So retention of twice the lifetime gives single use exactly when the reservation delay stays within the margin. */
  lemma SingleUseExactly(ttl: nat, delay: nat)
    requires ttl > 0
    ensures Margin(ttl, delay) <==>
            forall cfg: Config, steps: seq<Step> | cfg.ttl == ttl && cfg.delay == delay && Run(cfg, steps).Some? ::
              AtMostOnce(Run(cfg, steps).value.settled)
  {
    if Margin(ttl, delay) {
      forall cfg: Config, steps: seq<Step> | cfg.ttl == ttl && cfg.delay == delay && Run(cfg, steps).Some?
        ensures AtMostOnce(Run(cfg, steps).value.settled)
      {
        SettlesAtMostOnce(cfg, steps);
      }
    } else {
      var cfg, steps := SlowReservationReplays(ttl, delay);
    }
  }

  /** The checks of a credential let through only what `Accepts` allows, when a challenge expires where it was issued
      to. */
  lemma CheckedIsAccepted(p: Payments.Primitives, payments: Payments.Config, issues: set<Payments.Issue>,
                          echo: Payments.Challenge,
                          tenant: string, body: string, method_: string, name: string, amount: string,
                          cfg: Config, now: nat, key: Payments.Tag -> nat)
    requires Payments.Ideal(p) && Payments.Configured(payments) && Payments.Seen(p, payments, issues, echo.id)
    requires Payments.Check(p, payments, echo, tenant, body, method_, name, amount, now / 1000).Ok?
    requires now / 1000 + payments.ttl < ChronoLite.LIMIT
             && forall i | i in issues :: i.at + payments.ttl < ChronoLite.LIMIT
    requires cfg.ttl / 1000 == payments.ttl
    requires forall i | i in issues ::
               var id := Payments.IssueChallenge(p, payments, i).id;
               key(id) in cfg.expiry && cfg.expiry[key(id)] == i.at + payments.ttl
    ensures Accepts(cfg, now, key(echo.id))
  {
    var i := Payments.RedeemedIssue(p, payments, issues, echo, tenant, body, method_, name, amount, now / 1000);
    AcceptedWithin(p, payments, issues, i, cfg, now, key);
  }

  lemma AcceptedWithin(p: Payments.Primitives, payments: Payments.Config, issues: set<Payments.Issue>,
                       i: Payments.Issue,
                       cfg: Config, now: nat, key: Payments.Tag -> nat)
    requires i in issues && Payments.WithinLifetime(payments, i, now / 1000)
    requires now / 1000 + payments.ttl < ChronoLite.LIMIT && i.at + payments.ttl < ChronoLite.LIMIT
    requires cfg.ttl / 1000 == payments.ttl
    requires forall i | i in issues ::
               var id := Payments.IssueChallenge(p, payments, i).id;
               key(id) in cfg.expiry && cfg.expiry[key(id)] == i.at + payments.ttl
    ensures Accepts(cfg, now, key(Payments.IssueChallenge(p, payments, i).id))
  {
  }
}
