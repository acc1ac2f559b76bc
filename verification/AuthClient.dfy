/** The browser token client: one in-flight refresh, one timer, and an election before each timed refresh
    (packages/auth-client/src/createAuthClient.ts). */
module AuthClient {
  import opened Prelude
  import Election = RefreshElection

  datatype Grant = Grant(token: string, expiresIn: int)

  /** timer is the instant the armed timer fires; waiting counts the elected timed refreshes that await the shared
      request, and ssrWaiting those that run without browser storage. */
  datatype State = State(
    accessToken: Option<string>, expiresAtMs: int, timer: Option<int>,
    inFlight: bool, waiting: nat, ssrWaiting: nat, broadcasts: seq<Grant>)

  const INITIAL := State(None, 0, None, false, 0, 0, [])

  function RoundedSeconds(ms: int): int {
    (ms + 500) / 1000
  }

  function Installed(s: State, g: Grant, now: int): State {
    s.(accessToken := Some(g.token), expiresAtMs := now + g.expiresIn * 1000,
       timer := Some(now + Max(5, g.expiresIn - 60) * 1000))
  }

  function CurrentToken(s: State, now: int): Option<string> {
    if s.accessToken.Some? && s.accessToken.value != "" && now < s.expiresAtMs then s.accessToken else None
  }

  /** The continuation of one elected refresh after the shared request settled. */
  function Continued(s: State, ok: bool, now: int): State {
    var token := if ok then CurrentToken(s, now) else None;
    if token.Some? then s.(broadcasts := s.broadcasts + [Grant(token.value,
        Max(1, RoundedSeconds(s.expiresAtMs - now)))])
    else s.(timer := Some(now + Election.LOCK_TTL_MS))
  }

  function AllContinued(s: State, n: nat, ok: bool, now: int): State
    decreases n
  {
    if n == 0 then s else AllContinued(Continued(s, ok, now), n - 1, ok, now)
  }

  /** Install: a code exchange, an org or workspace switch, or an adopted broadcast. Fire: the timer is due, and
      `acquired` is the outcome of the election. Settle: the refresh request returned. */
  datatype Event =
    | Install(g: Grant, now: int)
    | Clear(now: int)
    | OnDemand(now: int)
    | Fire(acquired: bool, now: int)
    | Settle(result: Option<Grant>, now: int)

  function Step(s: State, e: Event, hasStorage: bool): State {
    match e
    case Install(g, now) => Installed(s, g, now)
    case Clear(now) => s.(accessToken := None, expiresAtMs := 0, timer := None)
    case OnDemand(now) => s.(inFlight := true)
    case Fire(acquired, now) =>
      if s.timer.None? || now < s.timer.value then s
      else if !hasStorage then s.(timer := None, inFlight := true, ssrWaiting := s.ssrWaiting + 1)
      else if !acquired then s.(timer := Some(now + Election.LOCK_TTL_MS))
      else s.(timer := None, inFlight := true, waiting := s.waiting + 1)
    case Settle(g, now) =>
      if !s.inFlight then s
      else
        var t := if g.Some? then Installed(s, g.value, now) else s;
        AllContinued(t.(inFlight := false, waiting := 0, ssrWaiting := 0), s.waiting, g.Some?, now)
  }

  class Client {
    const hasStorage: bool
    var accessToken: Option<string>
    var expiresAtMs: int
    var refreshTimer: Option<int>
    var refreshInFlight: bool
    var waiting: nat
    var ssrWaiting: nat
    var broadcasts: seq<Grant>

    ghost function View(): State
      reads this
    {
      State(accessToken, expiresAtMs, refreshTimer, refreshInFlight, waiting, ssrWaiting, broadcasts)
    }

    constructor (hasStorage: bool)
      ensures View() == INITIAL && this.hasStorage == hasStorage
    {
      this.hasStorage := hasStorage;
      accessToken, expiresAtMs, refreshTimer := None, 0, None;
      refreshInFlight, waiting, ssrWaiting, broadcasts := false, 0, 0, [];
    }

    /** setToken and adoptToken. */
    method SetToken(g: Grant, now: int)
      modifies this
      ensures View() == Step(old(View()), Install(g, now), hasStorage)
    {
      accessToken := Some(g.token);
      expiresAtMs := now + g.expiresIn * 1000;
      var leadMs := Max(5, g.expiresIn - 60) * 1000;
      refreshTimer := Some(now + leadMs);
    }

    method ClearAccessToken(now: int)
      modifies this
      ensures View() == Step(old(View()), Clear(now), hasStorage)
    {
      accessToken := None;
      expiresAtMs := 0;
      refreshTimer := None;
    }

    method GetAccessToken(now: int) returns (t: Option<string>)
      ensures t == CurrentToken(View(), now)
    {
      t := None;
      if accessToken.Some? && accessToken.value != "" && now < expiresAtMs {
        t := accessToken;
      }
    }

    /** Starts a request, or joins the one in flight. */
    method SilentRefresh(now: int) returns (started: bool)
      modifies this`refreshInFlight
      ensures View() == Step(old(View()), OnDemand(now), hasStorage)
      ensures started <==> !old(refreshInFlight)
    {
      started := !refreshInFlight;
      refreshInFlight := true;
    }

    /** The timer callback, up to its first await. */
    method ScheduledRefresh(storage: Election.ElectionStorage, tabId: Election.Tab, now: int) returns (acquired: bool)
      requires refreshTimer.Some? && refreshTimer.value <= now
      modifies this, storage`cell
      ensures View() == Step(old(View()), Fire(acquired, now), hasStorage)
      ensures hasStorage ==>
        (acquired, storage.cell) == Election.Attempt(old(storage.cell), tabId, now, storage.outcome)
    {
      refreshTimer := None;
      if !hasStorage {
        var _ := SilentRefresh(now);
        ssrWaiting := ssrWaiting + 1;
        return false;
      }
      acquired := Election.TryAcquireRefreshLock(storage, tabId, now);
      if !acquired {
        refreshTimer := Some(now + Election.LOCK_TTL_MS);
        return;
      }
      var _ := SilentRefresh(now);
      waiting := waiting + 1;
    }

    /** The request settles; every elected refresh that awaited it continues, then releases the lock. */
    method RequestSettled(g: Option<Grant>, storage: Election.ElectionStorage, tabId: Election.Tab, now: int)
      requires refreshInFlight
      modifies this, storage`cell
      ensures View() == Step(old(View()), Settle(g, now), hasStorage)
      ensures storage.cell == if old(waiting) > 0 && old(storage.cell).Holds? && old(storage.cell).claim.tab == tabId
                              then Election.Absent else old(storage.cell)
    {
      if g.Some? {
        SetToken(g.value, now);
      }
      refreshInFlight := false;
      var todo := waiting;
      waiting, ssrWaiting := 0, 0;
      ghost var goal := AllContinued(View(), todo, g.Some?, now);
      ghost var held := storage.cell.Holds? && storage.cell.claim.tab == tabId;
      while todo > 0
        invariant 0 <= todo <= old(waiting)
        invariant AllContinued(View(), todo, g.Some?, now) == goal
        invariant storage.cell == if todo < old(waiting) && held then Election.Absent else old(storage.cell)
      {
        var token := GetAccessToken(now);
        if g.Some? && token.Some? {
          broadcasts := broadcasts + [Grant(token.value, Max(1, RoundedSeconds(expiresAtMs - now)))];
        } else {
          refreshTimer := Some(now + Election.LOCK_TTL_MS);
        }
        Election.ReleaseRefreshLock(storage, tabId);
        todo := todo - 1;
      }
    }
  }

  // ---- runs ----------------------------------------------------------------------------------------------

  function After(s: State, events: seq<Event>, hasStorage: bool): State
    decreases events
  {
    if events == [] then s else After(Step(s, events[0], hasStorage), events[1..], hasStorage)
  }

  /** A held token always has a next refresh coming: an armed timer, or an elected refresh in flight. */
  predicate NeverCoasts(s: State) {
    && (s.accessToken.Some? ==> s.timer.Some? || s.waiting > 0)
    && (s.waiting > 0 ==> s.inFlight)
  }

  lemma {:induction false} ContinuationsArmTheTimer(s: State, n: nat, ok: bool, now: int)
    ensures var t := AllContinued(s, n, ok, now);
            && t.accessToken == s.accessToken && t.expiresAtMs == s.expiresAtMs
            && t.inFlight == s.inFlight && t.waiting == s.waiting && t.ssrWaiting == s.ssrWaiting
            && (t.timer == s.timer || t.timer == Some(now + Election.LOCK_TTL_MS))
            && (n > 0 && !(ok && CurrentToken(s, now).Some?) ==> t.timer == Some(now + Election.LOCK_TTL_MS))
            && (ok && CurrentToken(s, now).Some? ==> t.timer == s.timer)
    decreases n
  {
    if n > 0 {
      ContinuationsArmTheTimer(Continued(s, ok, now), n - 1, ok, now);
    }
  }

  lemma NeverCoastsStep(s: State, e: Event)
    requires NeverCoasts(s)
    ensures NeverCoasts(Step(s, e, true))
  {
    if e.Settle? && s.inFlight {
      var t := if e.result.Some? then Installed(s, e.result.value, e.now) else s;
      ContinuationsArmTheTimer(t.(inFlight := false, waiting := 0, ssrWaiting := 0), s.waiting, e.result.Some?, e.now);
    }
  }

  /** With browser storage, in every run, whatever the elections and the requests return: a tab that holds a token
      never coasts without a refresh to come. */
  lemma {:induction false} TokenAlwaysHasARefreshComing(s: State, events: seq<Event>)
    requires NeverCoasts(s)
    ensures NeverCoasts(After(s, events, true))
    decreases events
  {
    if events != [] {
      NeverCoastsStep(s, events[0]);
      TokenAlwaysHasARefreshComing(Step(s, events[0], true), events[1..]);
    }
  }

  /** A held token has an armed timer, or a timed refresh in flight, elected or not. */
  predicate RefreshComing(s: State) {
    && (s.accessToken.Some? ==> s.timer.Some? || s.waiting > 0 || s.ssrWaiting > 0)
    && (s.waiting > 0 || s.ssrWaiting > 0 ==> s.inFlight)
  }

  /** A request fails that no elected refresh awaits, while a token is held and no timer is armed. */
  predicate FailsUnelected(s: State, e: Event) {
    e.Settle? && s.inFlight && e.result.None? && s.accessToken.Some? && s.timer.None? && s.waiting == 0
  }

  lemma ComingStepExactly(s: State, e: Event, hasStorage: bool)
    requires RefreshComing(s)
    ensures RefreshComing(Step(s, e, hasStorage)) <==> !FailsUnelected(s, e)
  {
    if e.Settle? && s.inFlight {
      var t := if e.result.Some? then Installed(s, e.result.value, e.now) else s;
      ContinuationsArmTheTimer(t.(inFlight := false, waiting := 0, ssrWaiting := 0), s.waiting, e.result.Some?, e.now);
    }
  }

  ghost predicate ComingThroughout(s: State, events: seq<Event>, hasStorage: bool)
    decreases events
  {
    RefreshComing(s) && (events == [] || ComingThroughout(Step(s, events[0], hasStorage), events[1..], hasStorage))
  }

  ghost predicate NeverFailsUnelected(s: State, events: seq<Event>, hasStorage: bool)
    decreases events
  {
    events == [] ||
      (!FailsUnelected(s, events[0]) && NeverFailsUnelected(Step(s, events[0], hasStorage), events[1..], hasStorage))
  }

  /** With storage or without: a token is never left without a refresh to come, exactly when no request fails that only
      a timer without storage awaited. */
  lemma {:induction false} CoastsExactly(s: State, events: seq<Event>, hasStorage: bool)
    requires RefreshComing(s)
    ensures ComingThroughout(s, events, hasStorage) <==> NeverFailsUnelected(s, events, hasStorage)
    decreases events
  {
    if events != [] {
      ComingStepExactly(s, events[0], hasStorage);
      if RefreshComing(Step(s, events[0], hasStorage)) {
        CoastsExactly(Step(s, events[0], hasStorage), events[1..], hasStorage);
      }
    }
  }

  /** Without storage one failed request leaves the token with nothing armed. */
  lemma CoastsWithoutStorage(token: string)
    ensures var s := Step(INITIAL, Install(Grant(token, 900), 0), false);
            var t := Step(Step(s, Fire(true, 840_000), false), Settle(None, 840_001), false);
            t.accessToken == Some(token) && t.timer == None && !t.inFlight && !NeverCoasts(t)
  {
  }

  // ---- a client and the election it takes part in --------------------------------------------------------------

  /** One tab's client and the shared cell. */
  datatype Browser = Browser(client: State, world: Election.World)

  /** Begin, Store and Confirm are the accesses of the timer's own attempt; Unlock is its release. Elsewhere is an
      access of another tab, or the cell vanishing. Local is anything else that happens to the client. */
  datatype Happening =
    | Begin(now: int)
    | Store(outcome: Election.WriteOutcome, now: int)
    | Confirm(now: int)
    | Unlock(e: Election.Event)
    | Elsewhere(e: Election.Event)
    | Local(event: Event)

  predicate Due(client: State, now: int) {
    client.timer.Some? && client.timer.value <= now
  }

  /** The client learns the outcome of its attempt, if it has one. */
  function Informed(client: State, w: Election.World, tab: Election.Tab, now: int): State {
    if Election.PcOf(w, tab).StoodDown? then Step(client, Fire(false, now), true)
    else if Election.PcOf(w, tab).Won? then Step(client, Fire(true, now), true)
    else client
  }

  function Happened(b: Browser, h: Happening, tab: Election.Tab): Browser {
    var pc := Election.PcOf(b.world, tab);
    match h
    case Begin(now) =>
      if !Due(b.client, now) || !Election.Resting(b.world, tab) then b
      else
        var w := Election.Step(b.world, Election.Check(tab, now));
        Browser(Informed(b.client, w, tab, now), w)
    case Store(outcome, now) =>
      if !pc.Checked? then b
      else
        var w := Election.Step(b.world, Election.Write(tab, outcome, now));
        Browser(Informed(b.client, w, tab, now), w)
    case Confirm(now) =>
      if !pc.Wrote? then b
      else
        var w := Election.Step(b.world, Election.Reread(tab, now));
        Browser(Informed(b.client, w, tab, now), w)
    case Unlock(e) =>
      if (e.BeginRelease? || e.EndRelease?) && e.tab == tab then b.(world := Election.Step(b.world, e)) else b
    case Elsewhere(e) => if e.Vanish? || e.tab != tab then b.(world := Election.Step(b.world, e)) else b
    case Local(event) =>
      if event.Fire? || pc.Checked? || pc.Wrote? then b else b.(client := Step(b.client, event, true))
  }

  function TimeOf(h: Happening): int {
    match h
    case Begin(now) => now
    case Store(_, now) => now
    case Confirm(now) => now
    case Unlock(e) => e.now
    case Elsewhere(e) => e.now
    case Local(event) => event.now
  }

  /** Time does not run back, and no write is dropped silently. */
  ghost predicate Regular(clock: int, hs: seq<Happening>)
    decreases hs
  {
    hs == [] ||
      (clock <= TimeOf(hs[0]) && (hs[0].Store? ==> hs[0].outcome != Election.Dropped)
       && (hs[0].Elsewhere? && hs[0].e.Write? ==> hs[0].e.outcome != Election.Dropped)
       && Regular(TimeOf(hs[0]), hs[1..]))
  }

  function AllHappened(b: Browser, hs: seq<Happening>, tab: Election.Tab): Browser
    decreases hs
  {
    if hs == [] then b else AllHappened(Happened(b, hs[0], tab), hs[1..], tab)
  }

  /** The election's own invariant, and a due timer throughout the attempt it started. */
  ghost predicate Sound(b: Browser, tab: Election.Tab, clock: int) {
    && b.world.clock <= clock && Election.Explained(b.world)
    && (Election.PcOf(b.world, tab).Checked? || Election.PcOf(b.world, tab).Wrote? ==> Due(b.client, clock))
  }

  lemma SoundStep(b: Browser, h: Happening, tab: Election.Tab, clock: int)
    requires Sound(b, tab, clock) && clock <= TimeOf(h)
    requires (h.Store? ==> h.outcome != Election.Dropped)
          && (h.Elsewhere? && h.e.Write? ==> h.e.outcome != Election.Dropped)
    ensures Sound(Happened(b, h, tab), tab, TimeOf(h))
  {
    match h {
      case Begin(now) => Election.ExplainedStep(b.world, Election.Check(tab, now));
      case Store(outcome, now) => Election.ExplainedStep(b.world, Election.Write(tab, outcome, now));
      case Confirm(now) => Election.ExplainedStep(b.world, Election.Reread(tab, now));
      case Unlock(e) =>
        if e.BeginRelease? || e.EndRelease? {
          Election.ExplainedStep(b.world, e);
        }
      case Elsewhere(e) =>
        if e.Vanish? || e.tab != tab {
          Election.ExplainedStep(b.world, e);
          Election.OthersKeepPc(b.world, e, tab);
        }
      case Local(_) =>
    }
  }

  lemma {:induction false} SoundRun(b: Browser, hs: seq<Happening>, tab: Election.Tab, clock: int)
    requires Sound(b, tab, clock) && Regular(clock, hs)
    ensures Sound(AllHappened(b, hs, tab), tab, EndOf(clock, hs))
    decreases hs
  {
    if hs != [] {
      SoundStep(b, hs[0], tab, clock);
      SoundRun(Happened(b, hs[0], tab), hs[1..], tab, TimeOf(hs[0]));
    }
  }

  function EndOf(clock: int, hs: seq<Happening>): int
    decreases hs
  {
    if hs == [] then clock else EndOf(TimeOf(hs[0]), hs[1..])
  }

  /** This happening has the client's own attempt refused. */
  predicate StandsDown(b: Browser, h: Happening, tab: Election.Tab) {
    && Election.PcOf(Happened(b, h, tab).world, tab).StoodDown?
    && ((h.Begin? && Due(b.client, h.now) && Election.Refuses(b.world, Election.Check(tab, h.now), tab))
        || (h.Confirm? && Election.Refuses(b.world, Election.Reread(tab, h.now), tab)))
  }

  /** A stand-down arms the timer one lock TTL ahead. */
  lemma StandDownRearms(b: Browser, h: Happening, tab: Election.Tab, clock: int)
    requires Sound(b, tab, clock) && clock <= TimeOf(h) && StandsDown(b, h, tab)
    ensures Happened(b, h, tab).client.timer == Some(TimeOf(h) + Election.LOCK_TTL_MS)
  {
  }

  /** Nothing arms a timer earlier than the retry: no new token is installed. */
  ghost predicate NoNewToken(hs: seq<Happening>) {
    forall h :: h in hs && h.Local? ==> !h.event.Install? && (h.event.Settle? ==> h.event.result.None?)
  }

  /** Since the stand-down nothing has been tried, or only at or after the time the timer was armed for. */
  ghost predicate Waits(b: Browser, tab: Election.Tab, down: Election.Pc, retry: int, clock: int) {
    var pc := Election.PcOf(b.world, tab);
    && clock >= retry - Election.LOCK_TTL_MS
    && (b.client.timer.Some? ==> b.client.timer.value >= retry)
    && (pc == down || (pc.Checked? || pc.Wrote? || pc.StoodDown? ==> pc.at >= retry))
  }

  lemma WaitsStep(b: Browser, h: Happening, tab: Election.Tab, down: Election.Pc, retry: int, clock: int)
    requires Waits(b, tab, down, retry, clock) && clock <= TimeOf(h) && down.StoodDown? && NoNewToken([h])
    ensures Waits(Happened(b, h, tab), tab, down, retry, TimeOf(h))
  {
    match h {
      case Begin(now) =>
      case Store(outcome, now) =>
      case Confirm(now) =>
      case Unlock(e) =>
      case Elsewhere(e) =>
        if e.Vanish? || e.tab != tab {
          Election.OthersKeepPc(b.world, e, tab);
        }
      case Local(event) =>
        assert h in [h];
        if event.Settle? && b.client.inFlight {
          ContinuationsArmTheTimer(b.client.(inFlight := false, waiting := 0, ssrWaiting := 0), b.client.waiting, false,
                                   event.now);
        }
    }
  }

  lemma {:induction false} WaitsRun(b: Browser, hs: seq<Happening>, tab: Election.Tab, down: Election.Pc, retry: int,
                                    clock: int)
    requires Waits(b, tab, down, retry, clock) && Regular(clock, hs) && down.StoodDown? && NoNewToken(hs)
    ensures Waits(AllHappened(b, hs, tab), tab, down, retry, EndOf(clock, hs))
    decreases hs
  {
    if hs != [] {
      assert hs[0] in hs && forall x :: x in hs[1..] ==> x in hs;
      WaitsStep(b, hs[0], tab, down, retry, clock);
      WaitsRun(Happened(b, hs[0], tab), hs[1..], tab, down, retry, TimeOf(hs[0]));
    }
  }

  /** End to end: in a run of a client and the election around it, a stand-down arms the timer one lock TTL ahead, and
      unless a new token comes in between, a later attempt of this client is refused only by a claim stamped after the
      stand-down, or by one that its tab wrote a whole TTL or more after stamping it. */
  lemma StandDownThenNewClaim(cell: Election.Cell, clock: int, first: seq<Happening>, h: Happening,
                              more: seq<Happening>, tab: Election.Tab)
    requires Regular(clock, first) && Regular(EndOf(clock, first), [h]) && Regular(TimeOf(h), more)
    requires NoNewToken(more)
    requires StandsDown(AllHappened(Browser(INITIAL, Election.Start(cell, clock)), first, tab), h, tab)
    ensures var b := AllHappened(Browser(INITIAL, Election.Start(cell, clock)), first, tab);
            var down := Happened(b, h, tab);
            var pc := Election.PcOf(AllHappened(down, more, tab).world, tab);
            && down.client.timer == Some(TimeOf(h) + Election.LOCK_TTL_MS)
            && (pc.StoodDown? && pc != Election.PcOf(down.world, tab) ==>
                 pc.at >= TimeOf(h) + Election.LOCK_TTL_MS && Election.NewOrLate(pc, TimeOf(h)))
  {
    var b0 := Browser(INITIAL, Election.Start(cell, clock));
    SoundRun(b0, first, tab, clock);
    var b, t := AllHappened(b0, first, tab), EndOf(clock, first);
    assert t <= TimeOf(h) by {
      assert [h][0] == h;
    }
    var down := Happened(b, h, tab);
    StandDownRearms(b, h, tab, t);
    SoundStep(b, h, tab, t);
    SoundRun(down, more, tab, TimeOf(h));
    WaitsRun(down, more, tab, Election.PcOf(down.world, tab), TimeOf(h) + Election.LOCK_TTL_MS, TimeOf(h));
    var w := AllHappened(down, more, tab).world;
    assert Election.RefusedByRecentOrLateClaim(Election.PcOf(w, tab));
  }
}
