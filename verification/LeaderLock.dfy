/** The Redis single-leader lock of the two worker applications
    (apps/workers/src/leaderLock.ts, apps/forge-worker/src/leaderLock.ts). */
module LeaderLock {
  import opened Prelude

  datatype Key = Key(name: string)

  datatype Token = Token(text: string)

  datatype Lease = Lease(token: Token, until: int)

  type Keys = map<Key, Lease>

  /** Redis drops a key at its expiry. */
  predicate Live(keys: Keys, key: Key, now: int) {
    key in keys && now < keys[key].until
  }

  /** SET key token PX ttl NX. A non-positive ttl is refused by Redis. */
  function SetNx(keys: Keys, key: Key, token: Token, ttl: int, now: int): Keys {
    if ttl <= 0 || Live(keys, key, now) then keys else keys[key := Lease(token, now + ttl)]
  }

  /** The compare-and-delete script. */
  function ReleaseIfOwner(keys: Keys, key: Key, token: Token, now: int): Keys {
    if Live(keys, key, now) && keys[key].token == token then keys - {key} else keys
  }

  class LockRedis {
    var keys: Keys

    method Set(key: Key, token: Token, ttl: int, now: int) returns (ok: bool)
      modifies this
      ensures keys == SetNx(old(keys), key, token, ttl, now)
      ensures ok <==> ttl > 0 && !Live(old(keys), key, now)
    {
      if ttl <= 0 || (key in keys && now < keys[key].until) {
        return false;
      }
      keys := keys[key := Lease(token, now + ttl)];
      ok := true;
    }

    method EvalRelease(key: Key, token: Token, now: int) returns (deleted: int)
      modifies this
      ensures keys == ReleaseIfOwner(old(keys), key, token, now)
      ensures deleted == 1 <==> Live(old(keys), key, now) && old(keys)[key].token == token
      ensures deleted == 0 || deleted == 1
    {
      if key in keys && now < keys[key].until && keys[key].token == token {
        keys := keys - {key};
        return 1;
      }
      deleted := 0;
    }
  }

  /** While fn runs, other instances and expiry turn the keys into `meanwhile`; fn ends at doneAt, returning or
      throwing. Only the lease taken here is ever taken back. */
  method WithLeaderLock(redis: LockRedis, key: Key, token: Token, ttl: int, now: int, meanwhile: Keys, doneAt: int)
    returns (ran: bool)
    modifies redis
    ensures ran <==> ttl > 0 && !Live(old(redis.keys), key, now)
    ensures !ran ==> redis.keys == old(redis.keys)
    ensures ran ==> redis.keys == ReleaseIfOwner(meanwhile, key, token, doneAt)
    ensures ran && meanwhile == SetNx(old(redis.keys), key, token, ttl, now) ==>
              !Live(redis.keys, key, doneAt) && forall k :: k != key && k in old(redis.keys) ==> k in redis.keys
    ensures ran ==> forall k :: k in meanwhile && meanwhile[k].token != token ==>
              k in redis.keys && redis.keys[k] == meanwhile[k]
  {
    ran := redis.Set(key, token, ttl, now);
    if !ran {
      return;
    }
    redis.keys := meanwhile;
    var _ := redis.EvalRelease(key, token, doneAt);
  }

  // ---- runs: withLeaderLock split at its await points --------------------------------------------------

  /** One admitted run of fn: `finished` when fn returned, threw or died with its process; `released` when the
      script was evaluated, which a crashed or disconnected holder never does. */
  datatype Section = Section(key: Key, token: Token, start: int, ttl: int, finished: Option<int>, released: bool) {
    function Deadline(): int { start + ttl }
  }

  datatype World = World(keys: Keys, sections: seq<Section>, clock: int)

  datatype Event =
    | Acquire(key: Key, token: Token, ttl: int, now: int)
    | Finish(i: nat, now: int)
    | Release(i: nat, now: int)

  function Step(w: World, e: Event): World {
    match e
    case Acquire(key, token, ttl, now) =>
      if ttl <= 0 || Live(w.keys, key, now) then w.(clock := now)
      else World(SetNx(w.keys, key, token, ttl, now), w.sections + [Section(key, token, now, ttl, None, false)], now)
    case Finish(i, now) =>
      if i < |w.sections| && w.sections[i].finished.None? then
        World(w.keys, w.sections[i := w.sections[i].(finished := Some(now))], now)
      else w.(clock := now)
    case Release(i, now) =>
      if i < |w.sections| && w.sections[i].finished.Some? then
        var s := w.sections[i];
        World(ReleaseIfOwner(w.keys, s.key, s.token, now), w.sections[i := s.(released := true)], now)
      else w.(clock := now)
  }

  /** Time does not run backwards, and every attempt brings a token of its own. */
  ghost predicate Allowed(w: World, e: Event) {
    && w.clock <= e.now
    && (e.Acquire? ==> forall s :: s in w.sections ==> s.token != e.token)
  }

  const START := World(map[], [], 0)

  /** The world after the first n events. */
  function After(events: seq<Event>): World {
    if events == [] then START else Step(After(events[..|events| - 1]), events[|events| - 1])
  }

  ghost predicate Run(events: seq<Event>) {
    forall n :: 0 <= n < |events| ==> Allowed(After(events[..n]), events[n])
  }

  /** Section s has not let go of its lease and its TTL has not run out. */
  predicate Holding(s: Section, now: int) {
    !s.released && now < s.Deadline()
  }

  ghost predicate TokensDiffer(w: World) {
    forall i, j :: 0 <= i < j < |w.sections| ==> w.sections[i].token != w.sections[j].token
  }

  ghost predicate HoldersOwnTheKey(w: World) {
    forall i :: 0 <= i < |w.sections| && Holding(w.sections[i], w.clock) ==>
      w.sections[i].key in w.keys && w.keys[w.sections[i].key] == Lease(w.sections[i].token, w.sections[i].Deadline())
  }

  /** The earlier of two sections of one key had finished, or had outrun its TTL, when the later one started. */
  predicate Separated(s: Section, t: Section) {
    s.key == t.key ==> s.Deadline() <= t.start || (s.finished.Some? && s.finished.value <= t.start)
  }

  ghost predicate SectionsSeparated(w: World) {
    forall i, j :: 0 <= i < j < |w.sections| ==> Separated(w.sections[i], w.sections[j])
  }

  ghost predicate SectionsInThePast(w: World) {
    forall i :: 0 <= i < |w.sections| ==>
      && w.sections[i].start <= w.clock
      && (w.sections[i].finished.Some? ==> w.sections[i].finished.value <= w.clock)
      && (w.sections[i].released ==> w.sections[i].finished.Some?)
  }

  ghost predicate Invariant(w: World) {
    TokensDiffer(w) && HoldersOwnTheKey(w) && SectionsSeparated(w) && SectionsInThePast(w)
  }

  lemma AcquireKeepsInvariant(w: World, e: Event)
    requires Invariant(w) && Allowed(w, e) && e.Acquire?
    ensures Invariant(Step(w, e))
  {
    var w', n := Step(w, e), |w.sections|;
    if |w'.sections| > n {
      assert forall i :: 0 <= i < n ==> w'.sections[i] == w.sections[i];
      forall i | 0 <= i < n ensures Separated(w.sections[i], w'.sections[n]) && w.sections[i].token != e.token {
        assert w.sections[i] in w.sections;
        assert !(w.sections[i].key == e.key && Holding(w.sections[i], e.now));
      }
      assert HoldersOwnTheKey(w');
    }
  }

  lemma FinishKeepsInvariant(w: World, e: Event)
    requires Invariant(w) && Allowed(w, e) && e.Finish?
    ensures Invariant(Step(w, e))
  {
  }

  lemma ReleaseKeepsInvariant(w: World, e: Event)
    requires Invariant(w) && Allowed(w, e) && e.Release?
    ensures Invariant(Step(w, e))
  {
    var w' := Step(w, e);
    if w'.sections != w.sections {
      forall j | 0 <= j < |w'.sections| && Holding(w'.sections[j], w'.clock)
        ensures w'.sections[j].key in w'.keys
        ensures w'.keys[w'.sections[j].key] == Lease(w'.sections[j].token, w'.sections[j].Deadline())
      {
        assert Holding(w.sections[j], w.clock) && w.sections[j].token != w.sections[e.i].token;
      }
    }
  }

  lemma StepKeepsInvariant(w: World, e: Event)
    requires Invariant(w) && Allowed(w, e)
    ensures Invariant(Step(w, e))
  {
    match e
    case Acquire(_, _, _, _) => AcquireKeepsInvariant(w, e);
    case Finish(_, _) => FinishKeepsInvariant(w, e);
    case Release(_, _) => ReleaseKeepsInvariant(w, e);
  }

  lemma {:induction false} RunKeepsInvariant(events: seq<Event>)
    requires Run(events)
    ensures Invariant(After(events))
  {
    if events != [] {
      var n := |events| - 1;
      forall m | 0 <= m < n ensures Allowed(After(events[..n][..m]), events[..n][m]) {
        assert events[..n][..m] == events[..m];
      }
      RunKeepsInvariant(events[..n]);
      StepKeepsInvariant(After(events[..n]), events[n]);
    }
  }

  /** In every reachable state at most one section of a key is within its TTL and unreleased. */
  lemma OneHolder(events: seq<Event>, i: nat, j: nat)
    requires Run(events)
    requires var w := After(events);
             i < |w.sections| && j < |w.sections| && w.sections[i].key == w.sections[j].key
             && Holding(w.sections[i], w.clock) && Holding(w.sections[j], w.clock)
    ensures i == j
  {
    RunKeepsInvariant(events);
    assert TokensDiffer(After(events));
  }

  lemma ReleaseSpares(w: World, i: nat, now: int, j: nat)
    requires Invariant(w) && w.clock <= now && j < |w.sections| && j != i && Holding(w.sections[j], now)
    ensures var x := Step(w, Release(i, now));
            var s := w.sections[j];
            Live(x.keys, s.key, now) && x.keys[s.key] == Lease(s.token, s.Deadline())
  {
  }

  lemma RunSnoc(events: seq<Event>, e: Event)
    requires Run(events + [e])
    ensures Run(events) && Allowed(After(events), e)
  {
    var all := events + [e];
    assert all[..|events|] == events && all[|events|] == e;
    assert Allowed(After(all[..|events|]), all[|events|]);
    RunPrefix(all, |events|);
  }

  /** However late a release comes, every other holder keeps its key. */
  lemma LateReleaseIsHarmless(events: seq<Event>, i: nat, now: int, j: nat)
    requires Run(events + [Release(i, now)])
    requires j < |After(events).sections| && j != i && Holding(After(events).sections[j], now)
    ensures var w := Step(After(events), Release(i, now));
            var s := After(events).sections[j];
            Live(w.keys, s.key, now) && w.keys[s.key] == Lease(s.token, s.Deadline())
  {
    RunSnoc(events, Release(i, now));
    RunKeepsInvariant(events);
    ReleaseSpares(After(events), i, now, j);
  }

  lemma RunPrefix(events: seq<Event>, n: nat)
    requires Run(events) && n <= |events|
    ensures Run(events[..n])
  {
    forall m | 0 <= m < n ensures Allowed(After(events[..n][..m]), events[..n][m]) {
      assert events[..n][..m] == events[..m];
    }
  }

  /** Two critical sections of one key overlap only if the earlier one has outrun its TTL. */
  lemma OverlapMeansOutrun(events: seq<Event>, i: nat, j: nat)
    requires Run(events) && i < j < |After(events).sections|
    requires var w := After(events);
             && w.sections[i].key == w.sections[j].key
             && (w.sections[i].finished.None? || w.sections[i].finished.value > w.sections[j].start)
    ensures After(events).sections[i].Deadline() <= After(events).sections[j].start
  {
    RunKeepsInvariant(events);
    assert Separated(After(events).sections[i], After(events).sections[j]);
  }

  /** If every finished run of fn stayed within its TTL, and every unfinished one still does, the sections of a
      key exclude each other. */
  lemma TimelyJobsExclude(events: seq<Event>, i: nat, j: nat)
    requires Run(events) && i < j < |After(events).sections|
    requires After(events).sections[i].key == After(events).sections[j].key
    requires var s, now := After(events).sections[i], After(events).clock;
             if s.finished.Some? then s.finished.value <= s.Deadline() else now < s.Deadline()
    ensures After(events).sections[i].finished.Some?
    ensures After(events).sections[i].finished.value <= After(events).sections[j].start
  {
    RunKeepsInvariant(events);
    assert Separated(After(events).sections[i], After(events).sections[j]);
  }

  // ---- tokens that callers choose ------------------------------------------------------------------------------

  /** At most one section of a key is within its TTL and unreleased. */
  ghost predicate Exclusive(w: World) {
    forall i, j :: 0 <= i < j < |w.sections| && w.sections[i].key == w.sections[j].key ==>
      !(Holding(w.sections[i], w.clock) && Holding(w.sections[j], w.clock))
  }

  /** And that one owns the key. */
  ghost predicate Guarded(w: World) {
    HoldersOwnTheKey(w) && Exclusive(w)
  }

  /** A release deletes the lease of another section, which holds the key under the same token. */
  ghost predicate Steals(w: World, e: Event) {
    && e.Release? && e.i < |w.sections| && w.sections[e.i].finished.Some?
    && exists j :: StolenFrom(w, e, j)
  }

  ghost predicate StolenFrom(w: World, e: Event, j: int)
    requires e.Release? && e.i < |w.sections|
  {
    && 0 <= j < |w.sections| && j != e.i && Holding(w.sections[j], e.now)
    && w.sections[j].key == w.sections[e.i].key && w.sections[j].token == w.sections[e.i].token
  }

  lemma StepGuardedExactly(w: World, e: Event)
    requires Guarded(w) && w.clock <= e.now
    ensures Guarded(Step(w, e)) <==> !Steals(w, e)
  {
    match e {
      case Acquire(_, _, _, _) => AcquireGuarded(w, e);
      case Finish(_, _) =>
      case Release(_, _) => ReleaseGuardedExactly(w, e);
    }
  }

  lemma AcquireGuarded(w: World, e: Event)
    requires Guarded(w) && w.clock <= e.now && e.Acquire?
    ensures Guarded(Step(w, e))
  {
    var w', n := Step(w, e), |w.sections|;
    if |w'.sections| > n {
      assert forall i :: 0 <= i < n ==> w'.sections[i] == w.sections[i];
      assert forall i :: 0 <= i < n && w.sections[i].key == e.key ==> !Holding(w.sections[i], e.now);
    }
  }

  lemma ReleaseGuardedExactly(w: World, e: Event)
    requires Guarded(w) && w.clock <= e.now && e.Release?
    ensures Guarded(Step(w, e)) <==> !Steals(w, e)
  {
    var w' := Step(w, e);
    if e.i < |w.sections| && w.sections[e.i].finished.Some? {
      forall j | 0 <= j < |w.sections| && j != e.i && Holding(w.sections[j], e.now)
        ensures w'.sections[j] == w.sections[j]
        ensures w.sections[j].key in w'.keys <==> !StolenFrom(w, e, j)
      {
        assert Holding(w.sections[j], w.clock);
      }
      if Steals(w, e) {
        var j :| StolenFrom(w, e, j);
        assert Holding(w'.sections[j], w'.clock) && w'.sections[j].key !in w'.keys;
      }
    }
  }

  ghost predicate InOrder(clock: int, events: seq<Event>)
    decreases events
  {
    events == [] || (clock <= events[0].now && InOrder(events[0].now, events[1..]))
  }

  ghost predicate GuardedThroughout(w: World, events: seq<Event>)
    decreases events
  {
    Guarded(w) && (events == [] || GuardedThroughout(Step(w, events[0]), events[1..]))
  }

  ghost predicate NeverSteals(w: World, events: seq<Event>)
    decreases events
  {
    events == [] || (!Steals(w, events[0]) && NeverSteals(Step(w, events[0]), events[1..]))
  }

  /** With tokens of any kind, shared or not, over every run: each key has one holder and that holder its lease,
      exactly when no release comes from a section whose token another one holds the same key under. */
  lemma {:induction false} GuardedExactly(w: World, events: seq<Event>)
    requires Guarded(w) && InOrder(w.clock, events)
    ensures GuardedThroughout(w, events) <==> NeverSteals(w, events)
    decreases events
  {
    if events != [] {
      StepGuardedExactly(w, events[0]);
      if Guarded(Step(w, events[0])) {
        GuardedExactly(Step(w, events[0]), events[1..]);
      }
    }
  }

  /** The exclusion itself is lost to an attempt right after the release, exactly when the release stole a lease. */
  lemma StealingAdmitsAnother(w: World, e: Event)
    requires Guarded(w) && w.clock <= e.now
    ensures Steals(w, e) <==> exists key, token, ttl :: !Exclusive(Step(Step(w, e), Acquire(key, token, ttl, e.now)))
  {
    StepGuardedExactly(w, e);
    if Steals(w, e) {
      var j :| StolenFrom(w, e, j);
      var s, n := w.sections[j], |w.sections|;
      var a := Acquire(s.key, s.token, 1, e.now);
      assert Holding(s, w.clock);
      var x := Step(Step(w, e), a);
      assert x.sections[j] == s && x.sections[n] == Section(s.key, s.token, e.now, 1, None, false);
      assert !Exclusive(x);
    } else {
      forall key, token, ttl ensures Exclusive(Step(Step(w, e), Acquire(key, token, ttl, e.now))) {
        AcquireGuarded(Step(w, e), Acquire(key, token, ttl, e.now));
      }
    }
  }

  /** Tokens of its own keep every release from stealing. */
  lemma OwnTokensNeverSteal(events: seq<Event>, e: Event)
    requires Run(events) && After(events).clock <= e.now
    ensures Guarded(After(events)) && !Steals(After(events), e)
  {
    RunKeepsInvariant(events);
    var w := After(events);
    forall i, j | 0 <= i < j < |w.sections| && w.sections[i].key == w.sections[j].key
      ensures !(Holding(w.sections[i], w.clock) && Holding(w.sections[j], w.clock))
    {
      assert w.sections[i].token != w.sections[j].token;
    }
  }

  /** The forge variant takes its token from the caller. When two attempts share one, the late release of the
      first deletes the second one's lease, and a third attempt is admitted beside it. */
  lemma SharedTokensBreakTheLock(key: Key, t: Token, u: Token)
    requires t != u
    ensures var w2 := Step(Step(START, Acquire(key, t, 10, 0)), Acquire(key, t, 10, 10));
            var w4 := Step(Step(w2, Finish(0, 11)), Release(0, 11));
            var w := Step(w4, Acquire(key, u, 10, 12));
            && |w.sections| == 3 && w.sections[1].key == w.sections[2].key
            && Holding(w.sections[1], w.clock) && Holding(w.sections[2], w.clock)
  {
  }
}
